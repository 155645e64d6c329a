/** Any number of Reports, interleaved at every store access. Those that share a check take turns;
    then they hand out the same slices and leave the same store as one after the other in the order
    of completion, and in any order if no two share a check. The saved file catches up with the store
    (internal/runner/runner.go, internal/scheduler/scheduler.go). */
module Serializability {
  import opened Selection
  import opened Check
  import opened State
  import opened Routing
  import opened Engine
  import opened EngineFacts
  import opened Interleaving
  import opened Histories

  // --- Footprints -------------------------------------------------------------------------

  // The store keys a report may touch.
  ghost predicate Owns(reps: seq<BoundReporter>, call: Call, key: string) {
    exists r :: r in call.results
      && (key == StatusKey(r.check) || exists rep :: rep in reps && key == NotifyKey(rep.name, r.check))
  }

  lemma OwnsStatus(reps: seq<BoundReporter>, call: Call, r: Result)
    requires r in call.results
    ensures Owns(reps, call, StatusKey(r.check))
  {
  }

  lemma OwnsNote(reps: seq<BoundReporter>, call: Call, r: Result, rep: BoundReporter)
    requires r in call.results && rep in reps
    ensures Owns(reps, call, NotifyKey(rep.name, r.check))
  {
  }

  ghost predicate DisjointChecks(c1: Call, c2: Call) {
    forall r, q :: r in c1.results && q in c2.results ==> r.check != q.check
  }

  lemma NotesApart(reps: seq<BoundReporter>, rep1: BoundReporter, c1: string, rep2: BoundReporter, c2: string)
    requires Separated(reps) && rep1 in reps && rep2 in reps && c1 != c2
    ensures NotifyKey(rep1.name, c1) != NotifyKey(rep2.name, c2)
  {
    var i :| 0 <= i < |reps| && reps[i] == rep1;
    var j :| 0 <= j < |reps| && reps[j] == rep2;
    assert i < j ==> Apart(reps[i].name, reps[j].name);
    assert j < i ==> Apart(reps[j].name, reps[i].name);
    if NotifyKey(rep1.name, c1) == NotifyKey(rep2.name, c2) {
      KeysEqual(rep1.name, c1, rep2.name, c2);
      EqualKeysNotApart(rep1.name, c1, rep2.name, c2);
    }
  }

  lemma FootprintsDisjoint(reps: seq<BoundReporter>, c1: Call, c2: Call, key: string)
    requires Separated(reps) && DisjointChecks(c1, c2) && Owns(reps, c1, key)
    ensures !Owns(reps, c2, key)
  {
    if Owns(reps, c2, key) {
      var r :| r in c1.results
        && (key == StatusKey(r.check) || exists rep :: rep in reps && key == NotifyKey(rep.name, r.check));
      var q :| q in c2.results
        && (key == StatusKey(q.check) || exists rep :: rep in reps && key == NotifyKey(rep.name, q.check));
      if key == StatusKey(r.check) {
        if key == StatusKey(q.check) {
          StatusKeysDiffer(r.check, q.check);
        } else {
          var rep :| rep in reps && key == NotifyKey(rep.name, q.check);
          KindsDiffer(r.check, rep.name, q.check);
        }
      } else {
        var rep :| rep in reps && key == NotifyKey(rep.name, r.check);
        if key == StatusKey(q.check) {
          KindsDiffer(q.check, rep.name, r.check);
        } else {
          var rep2 :| rep2 in reps && key == NotifyKey(rep2.name, q.check);
          NotesApart(reps, rep, r.check, rep2, q.check);
        }
      }
    }
  }

  ghost predicate AgreeOn(reps: seq<BoundReporter>, call: Call, m1: Entries, m2: Entries) {
    forall key :: Owns(reps, call, key) ==> Lookup(m1, key) == Lookup(m2, key)
  }

  // --- One step stays inside its footprint and sees nothing else ----------------------------

  predicate Within(reps: seq<BoundReporter>, call: Call, l: Local) {
    match l.pc
    case Snap(todo) => forall r :: r in todo ==> r in call.results
    case Turn(rs) => forall rep :: rep in rs ==> rep in reps
    case Gate(rs, todo, kept) =>
      && (forall rep :: rep in rs ==> rep in reps)
      && (forall r :: r in todo ==> r in call.results) && (forall r :: r in kept ==> r in call.results)
    case Marking(rs, name, _, todo) =>
      && (forall rep :: rep in rs ==> rep in reps)
      && (exists rep :: rep in reps && rep.name == name) && (forall r :: r in todo ==> r in call.results)
    case Noting(todo) => forall r :: r in todo ==> r in call.results
    case _ => true
  }

  lemma AdvanceWithin(reps: seq<BoundReporter>, call: Call, l: Local, mem: Entries)
    requires Within(reps, call, l)
    ensures Within(reps, call, Advance(reps, call, l, mem).0)
  {
    hide Wants, Moved, Lands, On, StatusKey, NotifyKey, Keep, Accepting;
    if l.pc.Turn? { TurnWithin(reps, call, l, mem); return; }
    if l.pc.Gate? { GateWithin(reps, call, l, mem); return; }
  }

  lemma TurnWithin(reps: seq<BoundReporter>, call: Call, l: Local, mem: Entries)
    requires Within(reps, call, l) && l.pc.Turn?
    ensures Within(reps, call, Advance(reps, call, l, mem).0)
  {
    hide Keep, Accepting;
    if l.pc.reps != [] {
      var accepting := Accepting(l.pc.reps[0].route);
      forall r | r in Keep(call.results, accepting) ensures r in call.results { KeepMember(call.results, accepting, r); }
    }
  }

  lemma GateWithin(reps: seq<BoundReporter>, call: Call, l: Local, mem: Entries)
    requires Within(reps, call, l) && l.pc.Gate?
    ensures Within(reps, call, Advance(reps, call, l, mem).0)
  {
    hide Wants;
    if l.pc.reps != [] { assert l.pc.reps[0] in reps; }
  }

  lemma AdvanceFrame(reps: seq<BoundReporter>, call: Call, l: Local, mem: Entries, key: string)
    requires Within(reps, call, l) && !Owns(reps, call, key)
    ensures Lookup(Advance(reps, call, l, mem).1, key) == Lookup(mem, key)
  {
    hide Wants, Moved, Lands, On, StatusKey, NotifyKey, Owns, Keep;
    match l.pc
    case Marking(_, name, _, todo) =>
      if todo != [] {
        var rep :| rep in reps && rep.name == name;
        OwnsNote(reps, call, todo[0], rep);
      }
    case Noting(todo) =>
      if todo != [] { OwnsStatus(reps, call, todo[0]); }
    case _ =>
  }

  lemma AdvanceAgrees(reps: seq<BoundReporter>, call: Call, l: Local, m1: Entries, m2: Entries)
    requires Within(reps, call, l) && AgreeOn(reps, call, m1, m2)
    ensures Advance(reps, call, l, m1).0 == Advance(reps, call, l, m2).0
    ensures AgreeOn(reps, call, Advance(reps, call, l, m1).1, Advance(reps, call, l, m2).1)
  {
    hide Lands, On, StatusKey, NotifyKey, Owns, Keep;
    match l.pc
    case Snap(todo) =>
      if todo != [] {
        OwnsStatus(reps, call, todo[0]);
        assert Lookup(m1, StatusKey(todo[0].check)) == Lookup(m2, StatusKey(todo[0].check));
      }
    case Gate(rs, todo, _) =>
      if rs != [] && todo != [] {
        OwnsNote(reps, call, todo[0], rs[0]);
        assert Lookup(m1, NotifyKey(rs[0].name, todo[0].check)) == Lookup(m2, NotifyKey(rs[0].name, todo[0].check));
      }
    case _ =>
  }

  lemma {:induction false} SoloWithin(reps: seq<BoundReporter>, call: Call, mem: Entries, n: nat)
    ensures Within(reps, call, Solo(reps, call, mem, n).0)
  {
    hide Advance;
    if n > 0 {
      SoloWithin(reps, call, mem, n - 1);
      var (l, m) := Solo(reps, call, mem, n - 1);
      AdvanceWithin(reps, call, l, m);
    }
  }

  lemma {:induction false} SoloFrame(reps: seq<BoundReporter>, call: Call, mem: Entries, n: nat, key: string)
    requires !Owns(reps, call, key)
    ensures Lookup(Solo(reps, call, mem, n).1, key) == Lookup(mem, key)
  {
    hide Advance, Owns, Within;
    if n > 0 {
      SoloFrame(reps, call, mem, n - 1, key);
      SoloWithin(reps, call, mem, n - 1);
      var (l, m) := Solo(reps, call, mem, n - 1);
      AdvanceFrame(reps, call, l, m, key);
    }
  }

  lemma {:induction false} SoloAgrees(reps: seq<BoundReporter>, call: Call, m1: Entries, m2: Entries, n: nat)
    requires AgreeOn(reps, call, m1, m2)
    ensures Solo(reps, call, m1, n).0 == Solo(reps, call, m2, n).0
    ensures AgreeOn(reps, call, Solo(reps, call, m1, n).1, Solo(reps, call, m2, n).1)
  {
    hide Advance, AgreeOn, Within;
    if n > 0 {
      SoloAgrees(reps, call, m1, m2, n - 1);
      SoloWithin(reps, call, m1, n - 1);
      var (l, e1) := Solo(reps, call, m1, n - 1);
      var (_, e2) := Solo(reps, call, m2, n - 1);
      AdvanceAgrees(reps, call, l, e1, e2);
    }
  }

  // The same for whole engine steps.
  lemma StepFrame(reps: seq<BoundReporter>, call: Call, mem: Entries, key: string)
    requires !Owns(reps, call, key)
    ensures Lookup(Step(mem, reps, call), key) == Lookup(mem, key)
  {
    hide Step, Handed, Advance, Owns;
    var n := SoloEnds(reps, call, mem, 0);
    SoloFinish(reps, call, mem, n);
    SoloFrame(reps, call, mem, n, key);
  }

  lemma StepAgrees(reps: seq<BoundReporter>, call: Call, m1: Entries, m2: Entries)
    requires AgreeOn(reps, call, m1, m2)
    ensures Handed(m1, reps, call) == Handed(m2, reps, call)
    ensures AgreeOn(reps, call, Step(m1, reps, call), Step(m2, reps, call))
  {
    hide Step, Handed, Advance, AgreeOn;
    var n := SoloEnds(reps, call, m1, 0);
    SoloFinish(reps, call, m1, n);
    SoloFinish(reps, call, m2, n);
    SoloAgrees(reps, call, m1, m2, n);
  }

  // --- Interleaved execution ----------------------------------------------------------------

  datatype System = System(locals: seq<Local>, mem: Entries, disk: Entries)

  function Init(calls: seq<Call>, mem: Entries, disk: Entries): System {
    System(seq(|calls|, i requires 0 <= i < |calls| => Start(calls[i])), mem, disk)
  }

  // Goroutine t makes one step; a dirty report saves the whole store under its lock.
  function Tick(reps: seq<BoundReporter>, calls: seq<Call>, s: System, t: nat): (s1: System)
    requires t < |calls| == |s.locals|
    ensures |s1.locals| == |calls|
  {
    var l := s.locals[t];
    var (l1, mem1) := Advance(reps, calls[t], l, s.mem);
    System(s.locals[t := l1], mem1, if l.pc.Saving? && l.dirty then s.mem else s.disk)
  }

  function Exec(reps: seq<BoundReporter>, calls: seq<Call>, mem: Entries, disk: Entries, schedule: seq<nat>): (s: System)
    requires forall i :: 0 <= i < |schedule| ==> schedule[i] < |calls|
    ensures |s.locals| == |calls|
  {
    if schedule == [] then Init(calls, mem, disk)
    else
      var last := |schedule| - 1;
      Tick(reps, calls, Exec(reps, calls, mem, disk, schedule[..last]), schedule[last])
  }

  predicate AllDone(s: System) {
    forall t :: 0 <= t < |s.locals| ==> s.locals[t].pc.Done?
  }

  // Every goroutine of the schedule exists.
  predicate Runs(schedule: seq<nat>, n: nat) {
    forall i :: 0 <= i < |schedule| ==> schedule[i] < n
  }

  // Goroutine t has taken a step and has not finished.
  predicate InProgress(s: System, schedule: seq<nat>, t: nat)
    requires t < |s.locals|
  {
    t in schedule && !s.locals[t].pc.Done?
  }

  function Active(s: System, schedule: seq<nat>): set<nat> {
    set t: nat | t < |s.locals| && InProgress(s, schedule, t)
  }

  ghost predicate ActiveDisjoint(calls: seq<Call>, active: set<nat>) {
    forall t: nat, u: nat :: t in active && u in active && t != u && t < |calls| && u < |calls|
      ==> DisjointChecks(calls[t], calls[u])
  }

  /** At no moment are two reports in progress that share a check. A check may be reported again and
      again, as long as each report of it finishes before the next one starts. */
  ghost predicate NeverMeet(reps: seq<BoundReporter>, calls: seq<Call>, mem: Entries, disk: Entries, schedule: seq<nat>)
    requires Runs(schedule, |calls|)
  {
    forall i :: 0 <= i <= |schedule| ==>
      ActiveDisjoint(calls, Active(Exec(reps, calls, mem, disk, schedule[..i]), schedule[..i]))
  }

  predicate PairwiseDisjoint(calls: seq<Call>) {
    forall i, j, r, q ::
      (0 <= i < |calls| && 0 <= j < |calls| && i != j && r in calls[i].results && q in calls[j].results)
      ==> r.check != q.check
  }

  // Goroutine t is where it would be had it run n steps alone.
  ghost predicate AsAlone(reps: seq<BoundReporter>, call: Call, mem0: Entries, l: Local, mem: Entries, n: nat) {
    l == Solo(reps, call, mem0, n).0 && AgreeOn(reps, call, mem, Solo(reps, call, mem0, n).1)
  }

  ghost predicate Tracks(reps: seq<BoundReporter>, calls: seq<Call>, mem0: Entries, s: System, t: nat)
    requires t < |s.locals| == |calls|
  {
    exists n: nat :: AsAlone(reps, calls[t], mem0, s.locals[t], s.mem, n)
  }

  ghost predicate Idle(reps: seq<BoundReporter>, calls: seq<Call>, active: set<nat>, key: string) {
    forall t: nat :: t in active && t < |calls| ==> !Owns(reps, calls[t], key)
  }

  // Every active goroutine is on its way alone from the store m, and no other key has moved.
  ghost predicate ActiveAlone(reps: seq<BoundReporter>, calls: seq<Call>, m: Entries, s: System, active: set<nat>)
    requires |s.locals| == |calls|
  {
    && (forall t: nat :: t in active ==> t < |calls| && Tracks(reps, calls, m, s, t))
    && (forall key :: Idle(reps, calls, active, key) ==> Lookup(s.mem, key) == Lookup(m, key))
  }

  lemma TickSelf(reps: seq<BoundReporter>, call: Call, mem0: Entries, l: Local, mem: Entries, n: nat)
    requires AsAlone(reps, call, mem0, l, mem, n)
    ensures var (l1, mem1) := Advance(reps, call, l, mem);
      AsAlone(reps, call, mem0, l1, mem1, n + 1)
  {
    hide Advance, AgreeOn, Within;
    var (l0, e) := Solo(reps, call, mem0, n);
    SoloWithin(reps, call, mem0, n);
    AdvanceAgrees(reps, call, l, mem, e);
  }

  lemma TickOther(reps: seq<BoundReporter>, call: Call, other: Call, mem0: Entries, l: Local, mem: Entries, n: nat,
                  lo: Local, mem1: Entries)
    requires Separated(reps) && DisjointChecks(call, other)
    requires AsAlone(reps, call, mem0, l, mem, n)
    requires Within(reps, other, lo) && mem1 == Advance(reps, other, lo, mem).1
    ensures AsAlone(reps, call, mem0, l, mem1, n)
  {
    hide Advance, Owns, Within, Separated, DisjointChecks;
    forall key | Owns(reps, call, key) ensures Lookup(mem1, key) == Lookup(Solo(reps, call, mem0, n).1, key) {
      FootprintsDisjoint(reps, call, other, key);
      AdvanceFrame(reps, other, lo, mem, key);
    }
  }

  // A goroutine enters: the store still is, on its keys, where its serial turn would begin.
  lemma Enters(reps: seq<BoundReporter>, calls: seq<Call>, m: Entries, s: System, active: set<nat>, t: nat)
    requires Separated(reps) && |s.locals| == |calls| && t < |calls| && s.locals[t] == Start(calls[t])
    requires ActiveAlone(reps, calls, m, s, active) && ActiveDisjoint(calls, active + {t}) && t !in active
    ensures ActiveAlone(reps, calls, m, s, active + {t})
  {
    hide Advance, Owns, Separated, Lookup, DisjointChecks;
    forall key | Owns(reps, calls[t], key) ensures Lookup(s.mem, key) == Lookup(m, key) {
      forall u: nat | u in active && u < |calls| ensures !Owns(reps, calls[u], key) {
        FootprintsDisjoint(reps, calls[t], calls[u], key);
      }
      assert Idle(reps, calls, active, key);
    }
    assert AsAlone(reps, calls[t], m, s.locals[t], s.mem, 0);
    forall key | Idle(reps, calls, active + {t}, key) ensures Lookup(s.mem, key) == Lookup(m, key) {
      assert Idle(reps, calls, active, key);
    }
  }

  // It moves.
  lemma Moves(reps: seq<BoundReporter>, calls: seq<Call>, m: Entries, s: System, active: set<nat>, t: nat)
    requires Separated(reps) && |s.locals| == |calls| && t < |calls| && t in active
    requires ActiveAlone(reps, calls, m, s, active) && ActiveDisjoint(calls, active)
    ensures ActiveAlone(reps, calls, m, Tick(reps, calls, s, t), active)
  {
    hide Advance, Owns, Within, Separated, AgreeOn, AsAlone, Lookup, DisjointChecks;
    var s1 := Tick(reps, calls, s, t);
    assert Tracks(reps, calls, m, s, t);
    var k: nat :| AsAlone(reps, calls[t], m, s.locals[t], s.mem, k);
    assert Within(reps, calls[t], s.locals[t]) by {
      SoloWithin(reps, calls[t], m, k);
      AsAloneLocal(reps, calls[t], m, s.locals[t], s.mem, k);
    }
    forall u: nat | u in active ensures Tracks(reps, calls, m, s1, u) {
      assert Tracks(reps, calls, m, s, u);
      var n: nat :| AsAlone(reps, calls[u], m, s.locals[u], s.mem, n);
      if u == t {
        TickSelf(reps, calls[t], m, s.locals[t], s.mem, n);
        assert AsAlone(reps, calls[u], m, s1.locals[u], s1.mem, n + 1);
      } else {
        TickOther(reps, calls[u], calls[t], m, s.locals[u], s.mem, n, s.locals[t], s1.mem);
        assert AsAlone(reps, calls[u], m, s1.locals[u], s1.mem, n);
      }
    }
    forall key | Idle(reps, calls, active, key) ensures Lookup(s1.mem, key) == Lookup(m, key) {
      AdvanceFrame(reps, calls[t], s.locals[t], s.mem, key);
    }
  }

  lemma AsAloneLocal(reps: seq<BoundReporter>, call: Call, mem0: Entries, l: Local, mem: Entries, n: nat)
    requires AsAlone(reps, call, mem0, l, mem, n)
    ensures l == Solo(reps, call, mem0, n).0
  {
  }

  // A finished goroutine has made exactly its engine step on its own keys.
  lemma FinishedAlone(reps: seq<BoundReporter>, call: Call, mem0: Entries, l: Local, mem: Entries)
    requires l.pc.Done? && exists n: nat :: AsAlone(reps, call, mem0, l, mem, n)
    ensures l.handed == Handed(mem0, reps, call)
    ensures AgreeOn(reps, call, mem, Step(mem0, reps, call))
  {
    hide Step, Handed, Advance, AgreeOn;
    var n: nat :| AsAlone(reps, call, mem0, l, mem, n);
    SoloFinish(reps, call, mem0, n);
  }

  // Another report's engine step does not show to a goroutine it is disjoint from.
  lemma Rebased(reps: seq<BoundReporter>, call: Call, other: Call, m: Entries, l: Local, mem: Entries, n: nat)
    requires Separated(reps) && DisjointChecks(call, other) && AsAlone(reps, call, m, l, mem, n)
    ensures AsAlone(reps, call, Step(m, reps, other), l, mem, n)
  {
    hide Step, Advance, Owns, Separated, DisjointChecks;
    var m1 := Step(m, reps, other);
    forall key | Owns(reps, call, key) ensures Lookup(m, key) == Lookup(m1, key) {
      FootprintsDisjoint(reps, call, other, key);
      StepFrame(reps, other, m, key);
    }
    SoloAgrees(reps, call, m, m1, n);
  }

  // It leaves: its whole engine step is added to the serial store.
  lemma Leaves(reps: seq<BoundReporter>, calls: seq<Call>, m: Entries, s: System, active: set<nat>, t: nat)
    requires Separated(reps) && |s.locals| == |calls| && t < |calls| && t in active && s.locals[t].pc.Done?
    requires ActiveAlone(reps, calls, m, s, active) && ActiveDisjoint(calls, active)
    ensures s.locals[t].handed == Handed(m, reps, calls[t])
    ensures ActiveAlone(reps, calls, Step(m, reps, calls[t]), s, active - {t})
  {
    hide Step, Handed, Advance, Owns, Separated, AgreeOn, AsAlone, Lookup, DisjointChecks;
    var m1 := Step(m, reps, calls[t]);
    assert Tracks(reps, calls, m, s, t);
    FinishedAlone(reps, calls[t], m, s.locals[t], s.mem);
    forall u: nat | u in active - {t} ensures Tracks(reps, calls, m1, s, u) {
      assert Tracks(reps, calls, m, s, u);
      var n: nat :| AsAlone(reps, calls[u], m, s.locals[u], s.mem, n);
      Rebased(reps, calls[u], calls[t], m, s.locals[u], s.mem, n);
      assert AsAlone(reps, calls[u], m1, s.locals[u], s.mem, n);
    }
    forall key | Idle(reps, calls, active - {t}, key) ensures Lookup(s.mem, key) == Lookup(m1, key) {
      if Owns(reps, calls[t], key) {
        AgreeAt(reps, calls[t], s.mem, m1, key);
      } else {
        assert Idle(reps, calls, active, key);
        StepFrame(reps, calls[t], m, key);
      }
    }
  }

  lemma AgreeAt(reps: seq<BoundReporter>, call: Call, m1: Entries, m2: Entries, key: string)
    requires AgreeOn(reps, call, m1, m2) && Owns(reps, call, key)
    ensures Lookup(m1, key) == Lookup(m2, key)
  {
  }

  // --- Serial execution ---------------------------------------------------------------------

  function Serial(mem: Entries, reps: seq<BoundReporter>, calls: seq<Call>, order: seq<nat>): Entries
    requires forall p :: 0 <= p < |order| ==> order[p] < |calls|
  {
    if order == [] then mem
    else
      var last := |order| - 1;
      Step(Serial(mem, reps, calls, order[..last]), reps, calls[order[last]])
  }

  predicate IsOrder(order: seq<nat>, n: nat) {
    && (forall p :: 0 <= p < |order| ==> order[p] < n)
    && (forall p, q :: 0 <= p < q < |order| ==> order[p] != order[q])
  }

  // After a serial prefix, each call's keys are as its own step left them, or still untouched.
  lemma {:induction false} SerialPart(mem: Entries, reps: seq<BoundReporter>, calls: seq<Call>, order: seq<nat>, t: nat)
    requires Separated(reps) && PairwiseDisjoint(calls) && IsOrder(order, |calls|) && t < |calls|
    ensures AgreeOn(reps, calls[t], Serial(mem, reps, calls, order),
                    if t in order then Step(mem, reps, calls[t]) else mem)
  {
    hide Step, Owns, Separated;
    if order != [] {
      var last := |order| - 1;
      var before := Serial(mem, reps, calls, order[..last]);
      var u := order[last];
      SerialPart(mem, reps, calls, order[..last], t);
      if u == t {
        StepAgrees(reps, calls[t], before, mem);
      } else {
        assert t in order <==> t in order[..last];
        forall key | Owns(reps, calls[t], key)
          ensures Lookup(Serial(mem, reps, calls, order), key) == Lookup(before, key)
        {
          assert DisjointChecks(calls[t], calls[u]);
          FootprintsDisjoint(reps, calls[t], calls[u], key);
          StepFrame(reps, calls[u], before, key);
        }
      }
    }
  }

  lemma {:induction false} SerialFrame(mem: Entries, reps: seq<BoundReporter>, calls: seq<Call>, order: seq<nat>, key: string)
    requires forall p :: 0 <= p < |order| ==> order[p] < |calls|
    requires forall t :: 0 <= t < |calls| ==> !Owns(reps, calls[t], key)
    ensures Lookup(Serial(mem, reps, calls, order), key) == Lookup(mem, key)
  {
    hide Step, Owns;
    if order != [] {
      var last := |order| - 1;
      SerialFrame(mem, reps, calls, order[..last], key);
      StepFrame(reps, calls[order[last]], Serial(mem, reps, calls, order[..last]), key);
    }
  }

  // --- In the order of completion ------------------------------------------------------------

  // The goroutines in the order in which they finished.
  function Completions(reps: seq<BoundReporter>, calls: seq<Call>, mem: Entries, disk: Entries, schedule: seq<nat>):
    (order: seq<nat>)
    requires Runs(schedule, |calls|)
    ensures Runs(order, |calls|)
  {
    if schedule == [] then []
    else
      var last := |schedule| - 1;
      var earlier, t := Completions(reps, calls, mem, disk, schedule[..last]), schedule[last];
      if Exec(reps, calls, mem, disk, schedule).locals[t].pc.Done?
         && !Exec(reps, calls, mem, disk, schedule[..last]).locals[t].pc.Done?
      then earlier + [t] else earlier
  }

  lemma AdvanceDone(reps: seq<BoundReporter>, call: Call, l: Local, mem: Entries)
    ensures l.pc.Done? ==> Advance(reps, call, l, mem) == (l, mem)
    ensures l == Start(call) ==> !Advance(reps, call, l, mem).0.pc.Done?
  {
    hide Moved, StatusKey, NotifyKey, Keep, Wants, Lands, On;
  }

  lemma TickTurns(reps: seq<BoundReporter>, calls: seq<Call>, s: System, t: nat)
    requires t < |calls| == |s.locals|
    ensures var s1 := Tick(reps, calls, s, t);
      && (forall u :: 0 <= u < |calls| && u != t ==> s1.locals[u] == s.locals[u])
      && (s.locals[t].pc.Done? ==> s1 == s)
      && (s.locals[t] == Start(calls[t]) ==> !s1.locals[t].pc.Done?)
  {
    hide Advance;
    AdvanceDone(reps, calls[t], s.locals[t], s.mem);
    if s.locals[t].pc.Done? { assert s.locals[t := s.locals[t]] == s.locals; }
  }

  lemma {:induction false} CompletionsAreDone(reps: seq<BoundReporter>, calls: seq<Call>, mem: Entries, disk: Entries,
                                              schedule: seq<nat>)
    requires Runs(schedule, |calls|)
    ensures DoneInOrder(calls, Exec(reps, calls, mem, disk, schedule), schedule, Completions(reps, calls, mem, disk, schedule))
  {
    hide Tick;
    if schedule != [] {
      var last := |schedule| - 1;
      var s, t := Exec(reps, calls, mem, disk, schedule[..last]), schedule[last];
      CompletionsAreDone(reps, calls, mem, disk, schedule[..last]);
      TickTurns(reps, calls, s, t);
      assert schedule == schedule[..last] + [t];
      hide Exec, DoneInOrder;
      DoneGrows(calls, s, Tick(reps, calls, s, t), schedule[..last], Completions(reps, calls, mem, disk, schedule[..last]), t);
    }
  }

  // The order lists those that are done, each once; the others of the schedule are under way.
  predicate DoneInOrder(calls: seq<Call>, s: System, schedule: seq<nat>, order: seq<nat>) {
    && |s.locals| == |calls| && IsOrder(order, |calls|)
    && (forall t: nat :: t < |calls| ==> (t in order <==> s.locals[t].pc.Done?))
    && (forall t: nat :: t < |calls| && t !in schedule ==> s.locals[t] == Start(calls[t]))
  }

  lemma DoneGrows(calls: seq<Call>, s: System, s1: System, schedule: seq<nat>, order: seq<nat>, t: nat)
    requires DoneInOrder(calls, s, schedule, order) && t < |calls| == |s1.locals|
    requires forall u :: 0 <= u < |calls| && u != t ==> s1.locals[u] == s.locals[u]
    requires s.locals[t].pc.Done? ==> s1 == s
    ensures DoneInOrder(calls, s1, schedule + [t],
                        if s1.locals[t].pc.Done? && !s.locals[t].pc.Done? then order + [t] else order)
  {
  }

  lemma {:induction false} CompletionsGrow(reps: seq<BoundReporter>, calls: seq<Call>, mem: Entries, disk: Entries,
                                           schedule: seq<nat>, i: nat)
    requires Runs(schedule, |calls|) && i <= |schedule|
    ensures Completions(reps, calls, mem, disk, schedule[..i]) <= Completions(reps, calls, mem, disk, schedule)
  {
    hide Exec;
    if i < |schedule| {
      var last := |schedule| - 1;
      CompletionsGrow(reps, calls, mem, disk, schedule[..last], i);
      assert schedule[..last][..i] == schedule[..i];
    } else {
      assert schedule[..i] == schedule;
    }
  }

  // The slices of the finished reports are those of the serial run.
  ghost predicate HandedSerially(reps: seq<BoundReporter>, calls: seq<Call>, mem: Entries, s: System, order: seq<nat>)
    requires |s.locals| == |calls| && IsOrder(order, |calls|)
  {
    forall p :: 0 <= p < |order| ==>
      s.locals[order[p]].handed == Handed(Serial(mem, reps, calls, order[..p]), reps, calls[order[p]])
  }

  lemma NeverMeetPrefix(reps: seq<BoundReporter>, calls: seq<Call>, mem: Entries, disk: Entries, schedule: seq<nat>, i: nat)
    requires Runs(schedule, |calls|) && NeverMeet(reps, calls, mem, disk, schedule) && i <= |schedule|
    ensures NeverMeet(reps, calls, mem, disk, schedule[..i])
    ensures ActiveDisjoint(calls, Active(Exec(reps, calls, mem, disk, schedule[..i]), schedule[..i]))
  {
    hide Active, ActiveDisjoint, Exec;
    assert forall j :: 0 <= j <= i ==> schedule[..i][..j] == schedule[..j];
  }

  // One step, for the set of goroutines in progress.
  lemma ActiveAfter(s: System, s1: System, schedule: seq<nat>, t: nat)
    requires |s1.locals| == |s.locals| && t < |s.locals|
    requires forall u :: 0 <= u < |s.locals| && u != t ==> s1.locals[u] == s.locals[u]
    requires s.locals[t].pc.Done? ==> s1 == s
    ensures var before := Active(s, schedule);
      Active(s1, schedule + [t]) == if s1.locals[t].pc.Done? then before - {t} else before + {t}
  {
    forall u: nat | u < |s.locals| && u != t
      ensures InProgress(s1, schedule + [t], u) <==> InProgress(s, schedule, u)
    {
    }
  }

  lemma {:induction false} SerializesSoFar(reps: seq<BoundReporter>, calls: seq<Call>, mem: Entries, disk: Entries,
                                           schedule: seq<nat>)
    requires Separated(reps) && Runs(schedule, |calls|) && NeverMeet(reps, calls, mem, disk, schedule)
    ensures var s, order := Exec(reps, calls, mem, disk, schedule), Completions(reps, calls, mem, disk, schedule);
      && IsOrder(order, |calls|)
      && ActiveAlone(reps, calls, Serial(mem, reps, calls, order), s, Active(s, schedule))
      && HandedSerially(reps, calls, mem, s, order)
  {
    hide Tick, ActiveAlone, ActiveDisjoint, Active, NeverMeet, Separated, Step, Handed, Serial, HandedSerially;
    CompletionsAreDone(reps, calls, mem, disk, schedule);
    if schedule == [] {
      NothingActive(reps, calls, mem, disk);
    } else {
      var last := |schedule| - 1;
      var s, t := Exec(reps, calls, mem, disk, schedule[..last]), schedule[last];
      var s1 := Exec(reps, calls, mem, disk, schedule);
      NeverMeetPrefix(reps, calls, mem, disk, schedule, last);
      NeverMeetPrefix(reps, calls, mem, disk, schedule, |schedule|);
      assert schedule[..|schedule|] == schedule && schedule[..last] + [t] == schedule;
      SerializesSoFar(reps, calls, mem, disk, schedule[..last]);
      CompletionsAreDone(reps, calls, mem, disk, schedule[..last]);
      TickTurns(reps, calls, s, t);
      ActiveAfter(s, s1, schedule[..last], t);
      StepSerializes(reps, calls, mem, s, schedule[..last], Completions(reps, calls, mem, disk, schedule[..last]), t);
    }
  }

  // One step of the schedule: entering, moving and leaving.
  lemma StepSerializes(reps: seq<BoundReporter>, calls: seq<Call>, mem: Entries, s: System, schedule: seq<nat>,
                       order: seq<nat>, t: nat)
    requires Separated(reps) && t < |calls| == |s.locals| && IsOrder(order, |calls|)
    requires forall u: nat :: u < |calls| ==> (u in order <==> s.locals[u].pc.Done?)
    requires t !in schedule ==> s.locals[t] == Start(calls[t])
    requires ActiveAlone(reps, calls, Serial(mem, reps, calls, order), s, Active(s, schedule))
    requires HandedSerially(reps, calls, mem, s, order)
    requires ActiveDisjoint(calls, Active(s, schedule))
    requires ActiveDisjoint(calls, Active(Tick(reps, calls, s, t), schedule + [t]))
    ensures var s1 := Tick(reps, calls, s, t);
      var order1 := if s1.locals[t].pc.Done? && !s.locals[t].pc.Done? then order + [t] else order;
      && IsOrder(order1, |calls|)
      && ActiveAlone(reps, calls, Serial(mem, reps, calls, order1), s1, Active(s1, schedule + [t]))
      && HandedSerially(reps, calls, mem, s1, order1)
  {
    hide Tick, ActiveAlone, ActiveDisjoint, Separated, Step, Handed, HandedSerially, Serial;
    var s1, active, m := Tick(reps, calls, s, t), Active(s, schedule), Serial(mem, reps, calls, order);
    TickTurns(reps, calls, s, t);
    ActiveAfter(s, s1, schedule, t);
    TickKeepsHanded(reps, calls, mem, s, order, t);
    if s.locals[t].pc.Done? {
      assert active - {t} == active;
    } else {
      if t in active {
        assert active + {t} == active;
      } else {
        Enters(reps, calls, m, s, active, t);
      }
      Moves(reps, calls, m, s, active + {t}, t);
      if s1.locals[t].pc.Done? {
        Leaves(reps, calls, m, s1, active + {t}, t);
        assert active + {t} - {t} == active - {t};
        SerialGrows(reps, calls, mem, s1, order, t);
      }
    }
  }

  lemma SerialGrows(reps: seq<BoundReporter>, calls: seq<Call>, mem: Entries, s: System, order: seq<nat>, t: nat)
    requires t < |calls| == |s.locals| && IsOrder(order, |calls|) && t !in order
    requires HandedSerially(reps, calls, mem, s, order)
    requires s.locals[t].handed == Handed(Serial(mem, reps, calls, order), reps, calls[t])
    ensures IsOrder(order + [t], |calls|) && HandedSerially(reps, calls, mem, s, order + [t])
    ensures Serial(mem, reps, calls, order + [t]) == Step(Serial(mem, reps, calls, order), reps, calls[t])
  {
    hide Step, Handed, Serial;
    var order1 := order + [t];
    assert order1[..|order|] == order;
    SerialLast(mem, reps, calls, order1);
    forall p | 0 <= p < |order1|
      ensures s.locals[order1[p]].handed == Handed(Serial(mem, reps, calls, order1[..p]), reps, calls[order1[p]])
    {
      if p < |order| { assert order1[..p] == order[..p] && order1[p] == order[p]; }
    }
  }

  lemma SerialLast(mem: Entries, reps: seq<BoundReporter>, calls: seq<Call>, order: seq<nat>)
    requires order != [] && forall p :: 0 <= p < |order| ==> order[p] < |calls|
    ensures var last := |order| - 1;
      Serial(mem, reps, calls, order) == Step(Serial(mem, reps, calls, order[..last]), reps, calls[order[last]])
  {
    hide Step;
  }

  lemma NothingActive(reps: seq<BoundReporter>, calls: seq<Call>, mem: Entries, disk: Entries)
    ensures Active(Init(calls, mem, disk), []) == {}
    ensures ActiveAlone(reps, calls, Serial(mem, reps, calls, []), Init(calls, mem, disk), {})
    ensures HandedSerially(reps, calls, mem, Init(calls, mem, disk), [])
  {
  }

  // A step changes nothing a finished report has handed out.
  lemma TickKeepsHanded(reps: seq<BoundReporter>, calls: seq<Call>, mem: Entries, s: System, order: seq<nat>, t: nat)
    requires |s.locals| == |calls| && t < |calls| && IsOrder(order, |calls|)
    requires forall p :: 0 <= p < |order| ==> s.locals[order[p]].pc.Done?
    requires HandedSerially(reps, calls, mem, s, order)
    ensures HandedSerially(reps, calls, mem, Tick(reps, calls, s, t), order)
  {
    hide Advance, Step, Handed, Serial;
    AdvanceDone(reps, calls[t], s.locals[t], s.mem);
  }

  // t stands before u, or u is not listed.
  predicate Before(order: seq<nat>, t: nat, u: nat) {
    exists p :: 0 <= p < |order| && order[p] == t && u !in order[..p + 1]
  }

  /** Serializability. Reports that share a check take turns, all others interleave in any way. Once
      all are done, the store and every slice handed out are those of running the reports one after
      the other in the order in which they finished; that order respects real time. */
  lemma StrictlySerializable(reps: seq<BoundReporter>, calls: seq<Call>, mem: Entries, disk: Entries, schedule: seq<nat>)
    requires Separated(reps) && Runs(schedule, |calls|) && NeverMeet(reps, calls, mem, disk, schedule)
    requires AllDone(Exec(reps, calls, mem, disk, schedule))
    ensures var s, order := Exec(reps, calls, mem, disk, schedule), Completions(reps, calls, mem, disk, schedule);
      && IsOrder(order, |calls|) && (forall t: nat :: t < |calls| ==> t in order)
      && s.mem == Serial(mem, reps, calls, order)
      && HandedSerially(reps, calls, mem, s, order)
    ensures forall i, t: nat, u: nat ::
      (0 <= i <= |schedule| && t < |calls| && u < |calls| && u !in schedule[..i]
       && Exec(reps, calls, mem, disk, schedule[..i]).locals[t].pc.Done?)
      ==> Before(Completions(reps, calls, mem, disk, schedule), t, u)
  {
    hide Exec, Serial, ActiveAlone, Separated, NeverMeet, HandedSerially, Before, Completions;
    var s, order := Exec(reps, calls, mem, disk, schedule), Completions(reps, calls, mem, disk, schedule);
    SerializesSoFar(reps, calls, mem, disk, schedule);
    CompletionsAreDone(reps, calls, mem, disk, schedule);
    assert Active(s, schedule) == {};
    NoneActive(reps, calls, Serial(mem, reps, calls, order), s);
    forall i, t: nat, u: nat | 0 <= i <= |schedule| && t < |calls| && u < |calls| && u !in schedule[..i]
        && Exec(reps, calls, mem, disk, schedule[..i]).locals[t].pc.Done?
      ensures Before(order, t, u)
    {
      DoneBefore(reps, calls, mem, disk, schedule, i, t, u);
    }
  }

  lemma NoneActive(reps: seq<BoundReporter>, calls: seq<Call>, m: Entries, s: System)
    requires |s.locals| == |calls| && ActiveAlone(reps, calls, m, s, {})
    ensures s.mem == m
  {
    forall key ensures Lookup(s.mem, key) == Lookup(m, key) { assert Idle(reps, calls, {}, key); }
    SameLookups(s.mem, m);
  }

  lemma DoneBefore(reps: seq<BoundReporter>, calls: seq<Call>, mem: Entries, disk: Entries, schedule: seq<nat>, i: nat,
                   t: nat, u: nat)
    requires Runs(schedule, |calls|) && i <= |schedule| && t < |calls| && u < |calls| && u !in schedule[..i]
    requires Exec(reps, calls, mem, disk, schedule[..i]).locals[t].pc.Done?
    ensures Before(Completions(reps, calls, mem, disk, schedule), t, u)
  {
    hide Exec, Completions;
    var early, order := Completions(reps, calls, mem, disk, schedule[..i]), Completions(reps, calls, mem, disk, schedule);
    CompletionsAreDone(reps, calls, mem, disk, schedule[..i]);
    CompletionsGrow(reps, calls, mem, disk, schedule, i);
    assert u !in early && t in early;
    var p :| 0 <= p < |early| && early[p] == t;
    assert order[..p + 1] == early[..p + 1];
  }

  // --- As one history --------------------------------------------------------------------------

  function InOrder(mem: Entries, reps: seq<BoundReporter>, calls: seq<Call>, order: seq<nat>): History
    requires Runs(order, |calls|)
  {
    History(mem, reps, seq(|order|, p requires 0 <= p < |order| => calls[order[p]]))
  }

  // The reports handed out what the calls of the history, in this order, hand out.
  ghost predicate HandsOut(h: History, s: System, order: seq<nat>) {
    |h.calls| == |order| && forall p :: 0 <= p < |order| ==>
      order[p] < |s.locals| && s.locals[order[p]].handed == Handed(h.At(p), h.reporters, h.calls[p])
  }

  lemma {:induction false} SerialIsHistory(mem: Entries, reps: seq<BoundReporter>, calls: seq<Call>, order: seq<nat>, p: nat)
    requires IsOrder(order, |calls|) && p <= |order|
    ensures InOrder(mem, reps, calls, order).At(p) == Serial(mem, reps, calls, order[..p])
  {
    hide Step;
    if p > 0 {
      SerialIsHistory(mem, reps, calls, order, p - 1);
      assert order[..p][..p - 1] == order[..p - 1];
    }
  }

  /** So every theorem about histories holds of concurrent reports, read in completion order. */
  lemma ConcurrentRunIsHistory(reps: seq<BoundReporter>, calls: seq<Call>, mem: Entries, disk: Entries, schedule: seq<nat>)
    requires Separated(reps) && Runs(schedule, |calls|) && NeverMeet(reps, calls, mem, disk, schedule)
    requires AllDone(Exec(reps, calls, mem, disk, schedule))
    ensures var s, order := Exec(reps, calls, mem, disk, schedule), Completions(reps, calls, mem, disk, schedule);
      && IsOrder(order, |calls|) && (forall t: nat :: t < |calls| ==> t in order)
      && var h := InOrder(mem, reps, calls, order);
         s.mem == h.At(|h.calls|) && HandsOut(h, s, order)
  {
    hide Exec, Serial, Separated, NeverMeet, Completions, Handed, Step, AllDone, InProgress, Before, History.At;
    var s, order := Exec(reps, calls, mem, disk, schedule), Completions(reps, calls, mem, disk, schedule);
    StrictlySerializable(reps, calls, mem, disk, schedule);
    assert order[..|order|] == order;
    SerialIsHistory(mem, reps, calls, order, |order|);
    forall p | 0 <= p < |order|
      ensures s.locals[order[p]].handed == Handed(InOrder(mem, reps, calls, order).At(p), reps, calls[order[p]])
    {
      SerialIsHistory(mem, reps, calls, order, p);
    }
  }

  // --- In any order ----------------------------------------------------------------------------

  lemma SerialOrdersAgree(mem: Entries, reps: seq<BoundReporter>, calls: seq<Call>, order1: seq<nat>, order2: seq<nat>)
    requires Separated(reps) && PairwiseDisjoint(calls) && IsOrder(order1, |calls|) && IsOrder(order2, |calls|)
    requires forall t: nat :: t < |calls| ==> t in order1 && t in order2
    ensures Serial(mem, reps, calls, order1) == Serial(mem, reps, calls, order2)
  {
    hide Step, Owns, Separated, Serial, PairwiseDisjoint;
    var m1, m2 := Serial(mem, reps, calls, order1), Serial(mem, reps, calls, order2);
    forall key ensures Lookup(m1, key) == Lookup(m2, key) {
      if t: nat :| t < |calls| && Owns(reps, calls[t], key) {
        SerialPart(mem, reps, calls, order1, t);
        SerialPart(mem, reps, calls, order2, t);
      } else {
        SerialFrame(mem, reps, calls, order1, key);
        SerialFrame(mem, reps, calls, order2, key);
      }
    }
    SameLookups(m1, m2);
  }

  lemma HandedAsFirst(mem: Entries, reps: seq<BoundReporter>, calls: seq<Call>, order: seq<nat>, p: nat)
    requires Separated(reps) && PairwiseDisjoint(calls) && IsOrder(order, |calls|) && p < |order|
    ensures Handed(Serial(mem, reps, calls, order[..p]), reps, calls[order[p]]) == Handed(mem, reps, calls[order[p]])
  {
    hide Step, Handed, Separated, Serial, PairwiseDisjoint;
    SerialPart(mem, reps, calls, order[..p], order[p]);
    StepAgrees(reps, calls[order[p]], Serial(mem, reps, calls, order[..p]), mem);
  }

  /** Reports over pairwise disjoint checks even commute: whatever the interleaving, the outcome is
      that of running them one after the other in any order. */
  lemma Serializable(reps: seq<BoundReporter>, calls: seq<Call>, mem: Entries, disk: Entries, schedule: seq<nat>,
                     order: seq<nat>)
    requires Separated(reps) && PairwiseDisjoint(calls) && Runs(schedule, |calls|)
    requires AllDone(Exec(reps, calls, mem, disk, schedule))
    requires IsOrder(order, |calls|) && forall t: nat :: t < |calls| ==> t in order
    ensures Exec(reps, calls, mem, disk, schedule).mem == Serial(mem, reps, calls, order)
    ensures HandedSerially(reps, calls, mem, Exec(reps, calls, mem, disk, schedule), order)
  {
    hide Exec, Serial, Separated, NeverMeet, Completions, Handed, PairwiseDisjoint;
    var s, finished := Exec(reps, calls, mem, disk, schedule), Completions(reps, calls, mem, disk, schedule);
    DisjointNeverMeet(reps, calls, mem, disk, schedule);
    StrictlySerializable(reps, calls, mem, disk, schedule);
    SerialOrdersAgree(mem, reps, calls, finished, order);
    forall p | 0 <= p < |order|
      ensures s.locals[order[p]].handed == Handed(Serial(mem, reps, calls, order[..p]), reps, calls[order[p]])
    {
      assert order[p] in finished;
      var q :| 0 <= q < |finished| && finished[q] == order[p];
      HandedAsFirst(mem, reps, calls, finished, q);
      HandedAsFirst(mem, reps, calls, order, p);
    }
  }

  lemma DisjointNeverMeet(reps: seq<BoundReporter>, calls: seq<Call>, mem: Entries, disk: Entries, schedule: seq<nat>)
    requires PairwiseDisjoint(calls) && Runs(schedule, |calls|)
    ensures NeverMeet(reps, calls, mem, disk, schedule)
  {
    hide Active, Exec;
  }

  lemma SameLookups(m1: Entries, m2: Entries)
    requires forall key :: Lookup(m1, key) == Lookup(m2, key)
    ensures m1 == m2
  {
    forall key ensures key in m1 <==> key in m2 { assert Lookup(m1, key) == Lookup(m2, key); }
    forall key | key in m1 ensures m1[key] == m2[key] { assert Lookup(m1, key) == Lookup(m2, key); }
  }

  // --- The file catches up --------------------------------------------------------------------

  predicate CaughtUpOrPending(s: System) {
    s.disk == s.mem || exists t :: 0 <= t < |s.locals| && s.locals[t].dirty && !s.locals[t].pc.Done?
  }

  lemma TickPending(reps: seq<BoundReporter>, calls: seq<Call>, s: System, t: nat)
    requires t < |calls| == |s.locals| && CaughtUpOrPending(s)
    ensures CaughtUpOrPending(Tick(reps, calls, s, t))
  {
    hide Wants, Moved, Lands, On, StatusKey, NotifyKey, Keep;
    var s1 := Tick(reps, calls, s, t);
    if s1.disk != s1.mem {
      if s.disk == s.mem {
        assert s1.locals[t].dirty && !s1.locals[t].pc.Done?;
      } else {
        var u :| 0 <= u < |s.locals| && s.locals[u].dirty && !s.locals[u].pc.Done?;
        assert s1.locals[u].dirty && !s1.locals[u].pc.Done?;
      }
    }
  }

  /** Once every report has finished, the saved file holds exactly the store, whichever goroutine
      saved last; this needs no disjointness. */
  lemma {:induction false} DiskCatchesUp(reps: seq<BoundReporter>, calls: seq<Call>, mem: Entries, schedule: seq<nat>)
    requires forall i :: 0 <= i < |schedule| ==> schedule[i] < |calls|
    ensures var s := Exec(reps, calls, mem, mem, schedule);
      CaughtUpOrPending(s) && (AllDone(s) ==> s.disk == s.mem)
  {
    hide Tick;
    if schedule != [] {
      var last := |schedule| - 1;
      DiskCatchesUp(reps, calls, mem, schedule[..last]);
      TickPending(reps, calls, Exec(reps, calls, mem, mem, schedule[..last]), schedule[last]);
    }
  }

  // --- No interleaving gets stuck -------------------------------------------------------------

  lemma {:induction false} ExecShaped(reps: seq<BoundReporter>, calls: seq<Call>, mem: Entries, disk: Entries, schedule: seq<nat>, t: nat)
    requires forall i :: 0 <= i < |schedule| ==> schedule[i] < |calls|
    requires t < |calls|
    ensures Shaped(Exec(reps, calls, mem, disk, schedule).locals[t])
  {
    hide Advance, Shaped, Finish;
    if schedule == [] {
      SoloFinish(reps, calls[t], mem, 0);
    } else {
      var last := |schedule| - 1;
      var s := Exec(reps, calls, mem, disk, schedule[..last]);
      ExecShaped(reps, calls, mem, disk, schedule[..last], t);
      FinishInvariant(reps, calls[t], s.locals[t], s.mem);
    }
  }

  // Letting one goroutine run finishes it and leaves the others where they were.
  lemma {:induction false} FinishOne(reps: seq<BoundReporter>, calls: seq<Call>, mem: Entries, disk: Entries,
                                     schedule: seq<nat>, t: nat) returns (longer: seq<nat>)
    requires (forall i :: 0 <= i < |schedule| ==> schedule[i] < |calls|) && t < |calls|
    ensures schedule <= longer && forall i :: 0 <= i < |longer| ==> longer[i] < |calls|
    ensures var s, s1 := Exec(reps, calls, mem, disk, schedule), Exec(reps, calls, mem, disk, longer);
      s1.locals[t].pc.Done? && forall u :: 0 <= u < |calls| && u != t ==> s1.locals[u] == s.locals[u]
    decreases Phase(Exec(reps, calls, mem, disk, schedule).locals[t].pc),
      Ahead(Exec(reps, calls, mem, disk, schedule).locals[t].pc),
      Part(Exec(reps, calls, mem, disk, schedule).locals[t].pc),
      Todo(Exec(reps, calls, mem, disk, schedule).locals[t].pc)
  {
    hide Advance;
    var s := Exec(reps, calls, mem, disk, schedule);
    if s.locals[t].pc.Done? {
      longer := schedule;
    } else {
      ExecShaped(reps, calls, mem, disk, schedule, t);
      AdvanceShrinks(reps, calls[t], s.locals[t], s.mem);
      assert (schedule + [t])[..|schedule|] == schedule;
      assert Exec(reps, calls, mem, disk, schedule + [t]) == Tick(reps, calls, s, t);
      longer := FinishOne(reps, calls, mem, disk, schedule + [t], t);
    }
  }

  /** From any point of any interleaving every report can still be brought to its end. */
  lemma {:induction false} CanAlwaysFinish(reps: seq<BoundReporter>, calls: seq<Call>, mem: Entries, disk: Entries,
                                           schedule: seq<nat>, n: nat) returns (longer: seq<nat>)
    requires (forall i :: 0 <= i < |schedule| ==> schedule[i] < |calls|) && n <= |calls|
    ensures schedule <= longer && forall i :: 0 <= i < |longer| ==> longer[i] < |calls|
    ensures forall t :: 0 <= t < n ==> Exec(reps, calls, mem, disk, longer).locals[t].pc.Done?
    ensures n == |calls| ==> AllDone(Exec(reps, calls, mem, disk, longer))
  {
    hide Exec;
    if n == 0 {
      longer := schedule;
    } else {
      longer := CanAlwaysFinish(reps, calls, mem, disk, schedule, n - 1);
      longer := FinishOne(reps, calls, mem, disk, longer, n - 1);
    }
  }
}
