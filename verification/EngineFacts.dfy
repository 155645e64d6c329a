/** What one Report does to one reporter and one check: store keys, frames, and the projection of
    a step onto a single cell. */
module EngineFacts {
  import opened Text
  import opened Selection
  import opened Check
  import opened State
  import opened Routing
  import opened Engine

  // --- Store keys -------------------------------------------------------------------------

  // Keys as the state file holds them.
  lemma KeysSpelled(r: string, c: string)
    ensures StatusKey(c)[..7] == "status:" && StatusKey(c)[7..] == c
    ensures var key := NotifyKey(r, c);
      key[..7] == "notify:" && key[7..7 + |r|] == r && key[7 + |r|] == ':' && key[8 + |r|..] == c
  {
  }

  // The two names never share a notify key.
  predicate Apart(r1: string, r2: string) {
    r1 != r2 && !(r1 + ":" <= r2) && !(r2 + ":" <= r1)
  }

  predicate Separated(reps: seq<BoundReporter>) {
    forall i, j :: 0 <= i < j < |reps| ==> Apart(reps[i].name, reps[j].name)
  }

  lemma KeysEqual(r1: string, c1: string, r2: string, c2: string)
    requires NotifyKey(r1, c1) == NotifyKey(r2, c2)
    ensures r1 + ":" + c1 == r2 + ":" + c2
    ensures r1 == r2 ==> c1 == c2
  {
    var k1, k2 := NotifyKey(r1, c1), NotifyKey(r2, c2);
    assert k1[7..] == r1 + ":" + c1 && k2[7..] == r2 + ":" + c2;
    if r1 == r2 {
      assert c1 == k1[8 + |r1|..] == k2[8 + |r2|..] == c2;
    }
  }

  lemma StatusKeysDiffer(c1: string, c2: string)
    ensures StatusKey(c1) == StatusKey(c2) ==> c1 == c2
  {
    assert StatusKey(c1)[7..] == c1 && StatusKey(c2)[7..] == c2;
  }

  lemma KindsDiffer(c1: string, name: string, c2: string)
    ensures StatusKey(c1) != NotifyKey(name, c2)
  {
    assert StatusKey(c1)[0] == 's' && NotifyKey(name, c2)[0] == 'n';
  }

  lemma EqualKeysNotApart(r1: string, c1: string, r2: string, c2: string)
    requires NotifyKey(r1, c1) == NotifyKey(r2, c2)
    ensures !Apart(r1, r2)
  {
    KeysEqual(r1, c1, r2, c2);
    var t1, t2 := r1 + ":" + c1, r2 + ":" + c2;
    if |r1| < |r2| {
      assert t1[..|r1| + 1] == r1 + ":" && t2[..|r2|] == r2;
    } else if |r2| < |r1| {
      assert t2[..|r2| + 1] == r2 + ":" && t1[..|r1|] == r1;
    } else {
      assert t1[..|r1|] == r1 && t2[..|r2|] == r2;
    }
  }

  lemma ApartKeys(r1: string, c1: string, r2: string, c2: string)
    requires Apart(r1, r2)
    ensures NotifyKey(r1, c1) != NotifyKey(r2, c2)
  {
    if NotifyKey(r1, c1) == NotifyKey(r2, c2) { EqualKeysNotApart(r1, c1, r2, c2); }
  }

  // Two reporters can share a notify key exactly when their names are equal or one continues
  // the other after a colon.
  lemma NotifyKeysMeet(r1: string, r2: string)
    ensures (exists c1, c2 :: NotifyKey(r1, c1) == NotifyKey(r2, c2)) <==> !Apart(r1, r2)
  {
    if Apart(r1, r2) {
      forall c1, c2 ensures NotifyKey(r1, c1) != NotifyKey(r2, c2) { ApartKeys(r1, c1, r2, c2); }
    } else if r1 == r2 {
      assert NotifyKey(r1, "") == NotifyKey(r2, "");
    } else if r1 + ":" <= r2 {
      assert r2 == r1 + ":" + r2[|r1| + 1..];
      assert NotifyKey(r1, r2[|r1| + 1..] + ":") == NotifyKey(r2, "");
    } else {
      assert r1 == r2 + ":" + r1[|r2| + 1..];
      assert NotifyKey(r1, "") == NotifyKey(r2, r1[|r2| + 1..] + ":");
    }
  }

  // Unique names without a colon are enough.
  lemma ColonFreeNamesSeparate(reps: seq<BoundReporter>)
    requires forall i, j :: 0 <= i < j < |reps| ==> reps[i].name != reps[j].name
    requires forall i :: 0 <= i < |reps| ==> ':' !in reps[i].name
    ensures Separated(reps)
  {
    forall i, j | 0 <= i < j < |reps| ensures Apart(reps[i].name, reps[j].name) {
      var a, b := reps[i].name, reps[j].name;
      if a + ":" <= b { PrefixHasColon(a, b); }
      if b + ":" <= a { PrefixHasColon(b, a); }
    }
  }

  lemma PrefixHasColon(a: string, b: string)
    requires a + ":" <= b
    ensures ':' in b
  {
    assert b[|a|] == ':';
  }

  // --- Finding a check among results ------------------------------------------------------

  function Find(results: seq<Result>, c: string): Option<Result> {
    if results == [] then None
    else if results[0].check == c then Some(results[0])
    else Find(results[1..], c)
  }

  lemma {:induction false} FindMember(results: seq<Result>, r: Result)
    requires Distinct(results)
    ensures r in results <==> Find(results, r.check) == Some(r)
  {
    if results != [] {
      FindMember(results[1..], r);
      if results[0].check == r.check && r in results {
        DistinctUnique(results, results[0], r);
      }
    }
  }

  lemma {:induction false} FindNone(results: seq<Result>, c: string)
    ensures Find(results, c).Some? ==> Find(results, c).value in results && Find(results, c).value.check == c
    ensures Find(results, c).None? ==> forall r :: r in results ==> r.check != c
  {
    if results != [] { FindNone(results[1..], c); }
  }

  lemma {:induction false} KeepDistinct(results: seq<Result>, p: Result -> bool)
    requires Distinct(results)
    ensures Distinct(Keep(results, p))
  {
    if results != [] {
      KeepDistinct(results[1..], p);
      forall r | r in Keep(results[1..], p) ensures r.check != results[0].check {
        KeepMember(results[1..], p, r);
      }
    }
  }

  // --- What each part of a step writes ----------------------------------------------------

  lemma {:induction false} SnapshotAt(entries: Entries, results: seq<Result>, r: Result)
    requires Distinct(results) && r in results
    ensures On(Snapshot(entries, results), r.check) <==> Moved(entries, r)
  {
    if r in results[1..] {
      SnapshotAt(entries, results[1..], r);
      assert Snapshot(entries, results[1..]).Keys <= Snapshot(entries, results).Keys;
      SnapshotKeys(entries, results[1..]);
    } else {
      SnapshotKeys(entries, results[1..]);
    }
  }

  lemma {:induction false} SnapshotKeys(entries: Entries, results: seq<Result>)
    ensures forall c :: c in Snapshot(entries, results) <==> exists r :: r in results && r.check == c
  {
    if results != [] { SnapshotKeys(entries, results[1..]); }
  }

  lemma {:induction false} MarksKeys(name: string, slice: seq<Result>, o: Outcome, now: int, key: string)
    requires key in Marks(name, slice, o, now)
    ensures exists r :: r in slice && key == NotifyKey(name, r.check) && Lands(o, r.check)
  {
    if key in Marks(name, slice[1..], o, now) { MarksKeys(name, slice[1..], o, now, key); }
  }

  lemma {:induction false} MarksAt(name: string, slice: seq<Result>, o: Outcome, now: int, c: string)
    requires Distinct(slice)
    ensures Lookup(Marks(name, slice, o, now), NotifyKey(name, c))
      == if Find(slice, c).Some? && Lands(o, c)
         then Some(Entry(now, StatusName(Find(slice, c).value.status))) else None
  {
    if slice != [] {
      MarksAt(name, slice[1..], o, now, c);
      if slice[0].check == c {
        FindNone(slice[1..], c);
      } else if NotifyKey(name, slice[0].check) == NotifyKey(name, c) {
        KeysEqual(name, slice[0].check, name, c);
      }
    }
  }

  lemma {:induction false} ObservationsKeys(results: seq<Result>, changed: map<string, bool>, now: int, key: string)
    requires key in Observations(results, changed, now)
    ensures exists r :: r in results && key == StatusKey(r.check) && On(changed, r.check)
  {
    if key in Observations(results[1..], changed, now) { ObservationsKeys(results[1..], changed, now, key); }
  }

  lemma {:induction false} ObservationsAt(results: seq<Result>, changed: map<string, bool>, now: int, c: string)
    requires Distinct(results)
    ensures Lookup(Observations(results, changed, now), StatusKey(c))
      == if Find(results, c).Some? && On(changed, c)
         then Some(Entry(now, StatusName(Find(results, c).value.status))) else None
  {
    if results != [] {
      ObservationsAt(results[1..], changed, now, c);
      if results[0].check == c {
        FindNone(results[1..], c);
      } else {
        StatusKeysDiffer(results[0].check, c);
      }
    }
  }

  // --- Frames -----------------------------------------------------------------------------

  // The stores hold the same notify entries for this reporter.
  ghost predicate SameNotes(e1: Entries, e2: Entries, name: string) {
    forall c :: Lookup(e1, NotifyKey(name, c)) == Lookup(e2, NotifyKey(name, c))
  }

  lemma SliceReadsNotes(e1: Entries, e2: Entries, rep: BoundReporter, changed: map<string, bool>, call: Call)
    requires SameNotes(e1, e2, rep.name)
    ensures Slice(e1, rep, changed, call) == Slice(e2, rep, changed, call)
  {
    var p, q := Wanting(e1, rep, changed, call.now), Wanting(e2, rep, changed, call.now);
    forall r ensures p(r) == q(r) {
      assert Lookup(e1, NotifyKey(rep.name, r.check)) == Lookup(e2, NotifyKey(rep.name, r.check));
    }
    KeepAgree(Keep(call.results, Accepting(rep.route)), p, q);
  }

  lemma AfterReadsNotes(e1: Entries, e2: Entries, rep: BoundReporter, changed: map<string, bool>, call: Call)
    requires SameNotes(e1, e2, rep.name)
    ensures SameNotes(After(e1, rep, changed, call), After(e2, rep, changed, call), rep.name)
  {
    SliceReadsNotes(e1, e2, rep, changed, call);
    var slice := Slice(e1, rep, changed, call);
    var m := Marks(rep.name, slice, call.deliver(rep.name, slice), call.now);
    forall c ensures Lookup(e1 + m, NotifyKey(rep.name, c)) == Lookup(e2 + m, NotifyKey(rep.name, c)) {
      assert Lookup(e1, NotifyKey(rep.name, c)) == Lookup(e2, NotifyKey(rep.name, c));
    }
  }

  // A turn writes only the reporter's own notify entries.
  lemma AfterFrame(entries: Entries, rep: BoundReporter, changed: map<string, bool>, call: Call, key: string)
    requires forall c :: key != NotifyKey(rep.name, c)
    ensures Lookup(After(entries, rep, changed, call), key) == Lookup(entries, key)
  {
    var slice := Slice(entries, rep, changed, call);
    var m := Marks(rep.name, slice, call.deliver(rep.name, slice), call.now);
    if key in m { MarksKeys(rep.name, slice, call.deliver(rep.name, slice), call.now, key); }
  }

  lemma {:induction false} NotifyFrame(entries: Entries, reps: seq<BoundReporter>, changed: map<string, bool>,
                                       call: Call, key: string)
    requires forall i, c :: 0 <= i < |reps| ==> key != NotifyKey(reps[i].name, c)
    ensures Lookup(Notify(entries, reps, changed, call), key) == Lookup(entries, key)
    decreases |reps|
  {
    if reps != [] {
      AfterFrame(entries, reps[0], changed, call, key);
      NotifyFrame(After(entries, reps[0], changed, call), reps[1..], changed, call, key);
    }
  }

  lemma OthersKeepNotes(entries: Entries, reps: seq<BoundReporter>, changed: map<string, bool>, call: Call, name: string)
    requires forall i :: 0 <= i < |reps| ==> Apart(reps[i].name, name)
    ensures SameNotes(entries, Notify(entries, reps, changed, call), name)
  {
    forall c ensures Lookup(entries, NotifyKey(name, c))
        == Lookup(Notify(entries, reps, changed, call), NotifyKey(name, c)) {
      forall i, d | 0 <= i < |reps| ensures NotifyKey(name, c) != NotifyKey(reps[i].name, d) {
        ApartKeys(reps[i].name, d, name, c);
      }
      NotifyFrame(entries, reps, changed, call, NotifyKey(name, c));
    }
  }

  // Each reporter's turn comes out as if it had gone first: taking turns in sequence refines
  // all reporters acting on the snapshot.
  lemma {:induction false} TurnOf(entries: Entries, reps: seq<BoundReporter>, k: nat, changed: map<string, bool>, call: Call)
    requires Separated(reps) && k < |reps|
    ensures Slices(entries, reps, changed, call)[k] == Slice(entries, reps[k], changed, call)
    ensures SameNotes(Notify(entries, reps, changed, call), After(entries, reps[k], changed, call), reps[k].name)
    decreases |reps|
  {
    hide After, Slice, NotifyKey;
    var next := After(entries, reps[0], changed, call);
    if k == 0 {
      OthersKeepNotes(next, reps[1..], changed, call, reps[0].name);
    } else {
      TurnOf(next, reps[1..], k - 1, changed, call);
      assert SameNotes(entries, Notify(entries, [reps[0]], changed, call), reps[k].name) by {
        OthersKeepNotes(entries, [reps[0]], changed, call, reps[k].name);
      }
      assert Notify(entries, [reps[0]], changed, call) == next;
      SliceReadsNotes(entries, next, reps[k], changed, call);
      AfterReadsNotes(entries, next, reps[k], changed, call);
    }
  }

  // --- Projection onto one (reporter, check) ----------------------------------------------

  /** What the store knows that matters to one reporter about one check: the status last observed,
      and when and at which status the reporter was last told. */
  datatype Cell = Cell(seen: Option<string>, told: Option<Entry>)

  function CellOf(entries: Entries, name: string, c: string): Cell {
    var status := Lookup(entries, StatusKey(c));
    Cell(if status.Some? then Some(status.value.status) else None, Lookup(entries, NotifyKey(name, c)))
  }

  predicate Sends(route: Route, cell: Cell, now: int, r: Result) {
    && Accepts(route, r)
    && (|| route.repeatAlerts
        || cell.seen != Some(StatusName(r.status))
        || cell.told.None?
        || cell.told.value.status != StatusName(r.status)
        || (route.dedupeWindow > 0 && now - cell.told.value.time >= route.dedupeWindow))
  }

  function CellAfter(route: Route, cell: Cell, now: int, r: Result, lands: bool): Cell {
    Cell(Some(StatusName(r.status)),
         if !route.repeatAlerts && Sends(route, cell, now, r) && lands
         then Some(Entry(now, StatusName(r.status))) else cell.told)
  }

  lemma SliceProjects(entries: Entries, rep: BoundReporter, call: Call, r: Result)
    requires Distinct(call.results)
    ensures r in Slice(entries, rep, Snapshot(entries, call.results), call)
      <==> r in call.results && Sends(rep.route, CellOf(entries, rep.name, r.check), call.now, r)
  {
    var changed := Snapshot(entries, call.results);
    var filtered := Keep(call.results, Accepting(rep.route));
    KeepMember(call.results, Accepting(rep.route), r);
    KeepMember(filtered, Wanting(entries, rep, changed, call.now), r);
    if r in call.results { SnapshotAt(entries, call.results, r); }
  }

  lemma SliceDistinct(entries: Entries, rep: BoundReporter, changed: map<string, bool>, call: Call)
    requires Distinct(call.results)
    ensures Distinct(Slice(entries, rep, changed, call))
  {
    KeepDistinct(call.results, Accepting(rep.route));
    KeepDistinct(Keep(call.results, Accepting(rep.route)), Wanting(entries, rep, changed, call.now));
  }

  // The told half of the projection, for a reporter's own turn.
  lemma AfterProjects(entries: Entries, rep: BoundReporter, call: Call, c: string)
    requires Distinct(call.results)
    ensures var changed := Snapshot(entries, call.results);
      var f := Find(call.results, c);
      var cell := CellOf(entries, rep.name, c);
      var lands := Lands(call.deliver(rep.name, Slice(entries, rep, changed, call)), c);
      Lookup(After(entries, rep, changed, call), NotifyKey(rep.name, c))
        == if f.Some? then CellAfter(rep.route, cell, call.now, f.value, lands).told else cell.told
  {
    var changed := Snapshot(entries, call.results);
    var slice := Slice(entries, rep, changed, call);
    SliceDistinct(entries, rep, changed, call);
    MarksAt(rep.name, slice, call.deliver(rep.name, slice), call.now, c);
    FindNone(call.results, c);
    FindNone(slice, c);
    if Find(slice, c).Some? {
      var r := Find(slice, c).value;
      SliceProjects(entries, rep, call, r);
      FindMember(call.results, r);
    } else if Find(call.results, c).Some? {
      SliceProjects(entries, rep, call, Find(call.results, c).value);
    }
  }

  // The seen half: every observation updates the check's status, whoever is listening.
  lemma SeenProjects(entries: Entries, reps: seq<BoundReporter>, call: Call, name: string, c: string)
    requires Distinct(call.results)
    ensures var f := Find(call.results, c);
      CellOf(Step(entries, reps, call), name, c).seen
        == if f.Some? then Some(StatusName(f.value.status)) else CellOf(entries, name, c).seen
  {
    hide Step, Find;
    StatusEntryAfter(entries, reps, call, c);
  }

  // One report writes a status entry exactly where the status moved.
  lemma StatusEntryAfter(entries: Entries, reps: seq<BoundReporter>, call: Call, c: string)
    requires Distinct(call.results)
    ensures var f, last := Find(call.results, c), Lookup(entries, StatusKey(c));
      Lookup(Step(entries, reps, call), StatusKey(c))
        == if f.Some? && (last.None? || last.value.status != StatusName(f.value.status))
           then Some(Entry(call.now, StatusName(f.value.status))) else last
  {
    var changed := Snapshot(entries, call.results);
    forall i, d | 0 <= i < |reps| ensures StatusKey(c) != NotifyKey(reps[i].name, d) {
      KindsDiffer(c, reps[i].name, d);
    }
    NotifyFrame(entries, reps, changed, call, StatusKey(c));
    ObservationsAt(call.results, changed, call.now, c);
    FindNone(call.results, c);
    var f := Find(call.results, c);
    if f.Some? { SnapshotAt(entries, call.results, f.value); }
  }

  lemma StatusesKeepNotes(entries: Entries, call: Call, changed: map<string, bool>, name: string)
    ensures SameNotes(entries, entries + Observations(call.results, changed, call.now), name)
  {
    var o := Observations(call.results, changed, call.now);
    forall c ensures Lookup(entries, NotifyKey(name, c)) == Lookup(entries + o, NotifyKey(name, c)) {
      if NotifyKey(name, c) in o {
        ObservationsKeys(call.results, changed, call.now, NotifyKey(name, c));
        var r :| r in call.results && NotifyKey(name, c) == StatusKey(r.check);
        KindsDiffer(r.check, name, c);
      }
    }
  }

  /** One whole Report over all reporters and checks, seen from one reporter and one check, is one
      step of a two-field cell. */
  lemma StepProjects(entries: Entries, reps: seq<BoundReporter>, k: nat, call: Call, c: string)
    requires Separated(reps) && k < |reps| && Distinct(call.results)
    ensures var f := Find(call.results, c);
      var cell := CellOf(entries, reps[k].name, c);
      var slice := Handed(entries, reps, call)[k];
      CellOf(Step(entries, reps, call), reps[k].name, c)
        == if f.Some? then CellAfter(reps[k].route, cell, call.now, f.value,
                                     Lands(call.deliver(reps[k].name, slice), c))
           else cell
  {
    var changed := Snapshot(entries, call.results);
    TurnOf(entries, reps, k, changed, call);
    AfterProjects(entries, reps[k], call, c);
    SeenProjects(entries, reps, call, reps[k].name, c);
    StatusesKeepNotes(Notify(entries, reps, changed, call), call, changed, reps[k].name);
    var key := NotifyKey(reps[k].name, c);
    assert Lookup(Step(entries, reps, call), key) == Lookup(Notify(entries, reps, changed, call), key)
      == Lookup(After(entries, reps[k], changed, call), key);
  }

  // Membership in a slice is decided by the cell alone, and the slice keeps the results' order.
  lemma HandedProjects(entries: Entries, reps: seq<BoundReporter>, k: nat, call: Call, r: Result)
    requires Separated(reps) && k < |reps| && Distinct(call.results)
    ensures r in Handed(entries, reps, call)[k]
      <==> r in call.results && Sends(reps[k].route, CellOf(entries, reps[k].name, r.check), call.now, r)
  {
    TurnOf(entries, reps, k, Snapshot(entries, call.results), call);
    SliceProjects(entries, reps[k], call, r);
  }
}
