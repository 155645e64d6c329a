/** Theorems that compare two runs: what other reporters do to one reporter, and what losing the
    state file costs. */
module TwoRuns {
  import opened Text
  import opened Selection
  import opened Check
  import opened State
  import opened Routing
  import opened Engine
  import opened EngineFacts
  import opened Histories

  // --- Reporter non-interference ----------------------------------------------------------

  // The stores agree on everything that matters to this reporter.
  ghost predicate SameView(e1: Entries, e2: Entries, name: string) {
    forall c :: CellOf(e1, name, c) == CellOf(e2, name, c)
  }

  lemma SameViewParts(e1: Entries, e2: Entries, name: string)
    requires SameView(e1, e2, name)
    ensures SameNotes(e1, e2, name)
    ensures forall r: Result :: Moved(e1, r) == Moved(e2, r)
  {
    forall c ensures Lookup(e1, NotifyKey(name, c)) == Lookup(e2, NotifyKey(name, c)) {
      assert CellOf(e1, name, c) == CellOf(e2, name, c);
    }
    forall r: Result ensures Moved(e1, r) == Moved(e2, r) {
      assert CellOf(e1, name, r.check) == CellOf(e2, name, r.check);
    }
  }

  lemma {:induction false} SameSnapshot(e1: Entries, e2: Entries, results: seq<Result>)
    requires forall r: Result :: Moved(e1, r) == Moved(e2, r)
    ensures Snapshot(e1, results) == Snapshot(e2, results)
  {
    if results != [] { SameSnapshot(e1, e2, results[1..]); }
  }

  // Two calls with the same results and clock that treat one reporter the same.
  ghost predicate SameFor(c1: Call, c2: Call, name: string) {
    && c1.results == c2.results && c1.now == c2.now
    && forall slice :: c1.deliver(name, slice) == c2.deliver(name, slice)
  }

  lemma SameTurn(e1: Entries, e2: Entries, rep: BoundReporter, c1: Call, c2: Call)
    requires SameView(e1, e2, rep.name) && SameFor(c1, c2, rep.name)
    ensures var d1, d2 := Snapshot(e1, c1.results), Snapshot(e2, c2.results);
      && d1 == d2
      && Slice(e1, rep, d1, c1) == Slice(e2, rep, d2, c2)
      && SameNotes(After(e1, rep, d1, c1), After(e2, rep, d2, c2), rep.name)
  {
    SameViewParts(e1, e2, rep.name);
    SameSnapshot(e1, e2, c1.results);
    var d := Snapshot(e1, c1.results);
    SliceReadsNotes(e1, e2, rep, d, c1);
    assert Slice(e2, rep, d, c1) == Slice(e2, rep, d, c2);
    AfterReadsNotes(e1, e2, rep, d, c1);
    assert After(e2, rep, d, c1) == After(e2, rep, d, c2);
  }

  lemma SeenAfterStep(entries: Entries, reps: seq<BoundReporter>, call: Call, name: string, c: string)
    ensures CellOf(Step(entries, reps, call), name, c).seen
      == CellOf(entries + Observations(call.results, Snapshot(entries, call.results), call.now), name, c).seen
  {
    forall i, d | 0 <= i < |reps| ensures StatusKey(c) != NotifyKey(reps[i].name, d) {
      KindsDiffer(c, reps[i].name, d);
    }
    NotifyFrame(entries, reps, Snapshot(entries, call.results), call, StatusKey(c));
  }

  // One step: what a reporter is handed, and its view afterwards, do not depend on its colleagues.
  lemma SameStep(e1: Entries, e2: Entries, reps1: seq<BoundReporter>, k1: nat, reps2: seq<BoundReporter>, k2: nat,
                 c1: Call, c2: Call)
    requires Separated(reps1) && Separated(reps2)
    requires k1 < |reps1| && k2 < |reps2| && reps1[k1] == reps2[k2]
    requires SameView(e1, e2, reps1[k1].name) && SameFor(c1, c2, reps1[k1].name)
    ensures Handed(e1, reps1, c1)[k1] == Handed(e2, reps2, c2)[k2]
    ensures SameView(Step(e1, reps1, c1), Step(e2, reps2, c2), reps1[k1].name)
  {
    hide After, Slice, Notify, Slices, Observations, Snapshot, Separated, NotifyKey, StatusKey;
    var name := reps1[k1].name;
    var changed := Snapshot(e1, c1.results);
    SameTurn(e1, e2, reps1[k1], c1, c2);
    TurnOf(e1, reps1, k1, changed, c1);
    TurnOf(e2, reps2, k2, changed, c2);
    StatusesKeepNotes(Notify(e1, reps1, changed, c1), c1, changed, name);
    StatusesKeepNotes(Notify(e2, reps2, changed, c2), c2, changed, name);
    forall c ensures CellOf(Step(e1, reps1, c1), name, c) == CellOf(Step(e2, reps2, c2), name, c) {
      var key := NotifyKey(name, c);
      assert Lookup(Step(e1, reps1, c1), key) == Lookup(Notify(e1, reps1, changed, c1), key)
        == Lookup(After(e1, reps1[k1], changed, c1), key);
      assert Lookup(Step(e2, reps2, c2), key) == Lookup(Notify(e2, reps2, changed, c2), key)
        == Lookup(After(e2, reps2[k2], changed, c2), key);
      SeenAfterStep(e1, reps1, c1, name, c);
      SeenAfterStep(e2, reps2, c2, name, c);
      assert CellOf(e1, name, c) == CellOf(e2, name, c);
    }
  }

  /** A reporter's whole delivery trace depends on results, times, its own route and its own
      delivery outcomes: adding, removing, reordering or failing other reporters changes nothing.
      Results may even repeat a check. */
  lemma {:induction false} NonInterference(h1: History, k1: nat, h2: History, k2: nat, i: nat)
    requires Separated(h1.reporters) && Separated(h2.reporters)
    requires k1 < |h1.reporters| && k2 < |h2.reporters| && h1.reporters[k1] == h2.reporters[k2]
    requires i <= |h1.calls| == |h2.calls|
    requires SameView(h1.start, h2.start, h1.reporters[k1].name)
    requires forall j :: 0 <= j < |h1.calls| ==> SameFor(h1.calls[j], h2.calls[j], h1.reporters[k1].name)
    ensures SameView(h1.At(i), h2.At(i), h1.reporters[k1].name)
    ensures forall j :: 0 <= j < i ==> h1.SliceAt(k1, j) == h2.SliceAt(k2, j)
  {
    hide Step, Handed, SameView, SameFor, Separated;
    if i > 0 {
      NonInterference(h1, k1, h2, k2, i - 1);
      SameStep(h1.At(i - 1), h2.At(i - 1), h1.reporters, k1, h2.reporters, k2, h1.calls[i - 1], h2.calls[i - 1]);
    }
  }

  // --- Names that share keys do interfere -------------------------------------------------

  // Told to watch one check only.
  function Watcher(name: string, c: string): BoundReporter {
    BoundReporter(name, Route(OK, [c], [], false, false, 0))
  }

  // The check c2 is already crit; call 0 reports c1, call 1 finds c2 still crit.
  function Collision(reps: seq<BoundReporter>, c1: string, c2: string): History {
    var arrive := (name: string, slice: seq<Result>) => Delivered;
    History(map[StatusKey(c2) := Entry(0, "crit")], reps,
            [Call([Result(c1, Crit, "", [])], 1, arrive), Call([Result(c2, Crit, "", [])], 2, arrive)])
  }

  lemma Uninterested(entries: Entries, rep: BoundReporter, changed: map<string, bool>, call: Call)
    requires forall r :: r in call.results ==> !Accepts(rep.route, r)
    ensures Slice(entries, rep, changed, call) == [] && After(entries, rep, changed, call) == entries
  {
    KeepNone(call.results, Accepting(rep.route));
    var none: Entries := map[];
    assert entries + none == entries;
  }

  lemma AloneIsAlerted(r2: string, c1: string, c2: string)
    requires c1 != c2
    ensures Collision([Watcher(r2, c2)], c1, c2).SliceAt(0, 1) != []
  {
    hide Step, Handed;
    var h := Collision([Watcher(r2, c2)], c1, c2);
    KindsDiffer(c2, r2, c2);
    FindNone(h.calls[0].results, c2);
    assert h.LastTold(0, 0, c2).None? && h.LastTold(0, 1, c2).None?;
    HandedWhen(h, 0, 1, c2);
  }

  // After the first call the shared key holds what the first reporter was told.
  lemma CompanyWrites(r1: string, r2: string, c1: string, c2: string)
    requires c1 != c2 && NotifyKey(r1, c1) == NotifyKey(r2, c2)
    ensures var h := Collision([Watcher(r1, c1), Watcher(r2, c2)], c1, c2);
      CellOf(h.At(1), r2, c2) == Cell(Some("crit"), Some(Entry(1, "crit")))
  {
    hide Slice, Observations, Marks;
    var w1, w2 := Watcher(r1, c1), Watcher(r2, c2);
    var h := Collision([w1, w2], c1, c2);
    var e, call := h.start, h.calls[0];
    var changed := Snapshot(e, call.results);
    assert h.At(1) == Step(e, [w1, w2], call);
    SeenProjects(e, [w1, w2], call, r2, c2);
    KindsDiffer(c2, r1, c1);
    StatusKeysDiffer(c1, c2);
    assert Find(call.results, c1) == Some(call.results[0]) && Find(call.results, c2).None?;
    AfterProjects(e, w1, call, c1);
    Uninterested(After(e, w1, changed, call), w2, changed, call);
    assert [w1, w2][1..] == [w2] && [w2][1..] == [];
    assert Notify(After(e, w1, changed, call), [w2], changed, call) == After(e, w1, changed, call);
    assert Notify(e, [w1, w2], changed, call) == After(e, w1, changed, call);
    StatusesKeepNotes(After(e, w1, changed, call), call, changed, r2);
  }

  lemma CompanySilences(r1: string, r2: string, c1: string, c2: string)
    requires c1 != c2 && NotifyKey(r1, c1) == NotifyKey(r2, c2)
    ensures Collision([Watcher(r1, c1), Watcher(r2, c2)], c1, c2).SliceAt(1, 1) == []
  {
    hide Step, Keep, Marks;
    var w1, w2 := Watcher(r1, c1), Watcher(r2, c2);
    var h := Collision([w1, w2], c1, c2);
    var e, call := h.At(1), h.calls[1];
    var changed := Snapshot(e, call.results);
    CompanyWrites(r1, r2, c1, c2);
    Uninterested(e, w1, changed, call);
    assert [w1, w2][1..] == [w2];
    assert Slices(e, [w1, w2], changed, call)[1] == Slice(e, w2, changed, call);
    var slice := Slice(e, w2, changed, call);
    if slice != [] {
      SliceProjects(e, w2, call, slice[0]);
    }
  }

  /** Being apart is the exact condition: any two different names that share a key have runs in
      which the mere presence of the first silences an alert of the second. */
  lemma SharedKeysInterfere(r1: string, r2: string) returns (c1: string, c2: string)
    requires r1 != r2 && !Apart(r1, r2)
    ensures var alone := Collision([Watcher(r2, c2)], c1, c2);
      var together := Collision([Watcher(r1, c1), Watcher(r2, c2)], c1, c2);
      && together.calls == alone.calls && together.start == alone.start
      && together.reporters[1] == alone.reporters[0]
      && alone.SliceAt(0, 1) != [] && together.SliceAt(1, 1) == []
  {
    NotifyKeysMeet(r1, r2);
    c1, c2 :| NotifyKey(r1, c1) == NotifyKey(r2, c2);
    KeysEqual(r1, c1, r2, c2);
    if c1 == c2 { SameTails(r1, r2, c1); }
    AloneIsAlerted(r2, c1, c2);
    CompanySilences(r1, r2, c1, c2);
  }

  lemma SameTails(r1: string, r2: string, c: string)
    requires r1 + ":" + c == r2 + ":" + c
    ensures r1 == r2
  {
    var t1, t2 := r1 + ":" + c, r2 + ":" + c;
    assert |t1| == |r1| + 1 + |c| && |t2| == |r2| + 1 + |c|;
    assert t1[..|r1|] == r1 && t2[..|r2|] == r2;
  }

  // --- Cold start -------------------------------------------------------------------------

  function Cold(h: History): History {
    h.(start := map[])
  }

  lemma {:induction false} SeenAlikeOnceObserved(h: History, k: nat, i: nat, c: string)
    requires k < |h.reporters| && i <= |h.calls|
    ensures Cold(h).LastSeen(i, c).Some? ==> Cold(h).LastSeen(i, c) == h.LastSeen(i, c)
    ensures LastAccepted(h, k, i, c).Some? ==> Cold(h).LastSeen(i, c).Some?
    ensures LastAccepted(Cold(h), k, i, c) == LastAccepted(h, k, i, c)
  {
    if i > 0 { SeenAlikeOnceObserved(h, k, i - 1, c); }
  }

  // The replay from an emptied store hands over the result; the original does not.
  predicate Extra(h: History, k: nat, i: nat, r: Result)
    requires k < |h.reporters| && i < |h.calls|
  {
    r in Cold(h).SliceAt(k, i) && r !in h.SliceAt(k, i)
  }

  // What the emptied store forgot is all that keeps the original quiet: the check is still at the
  // status last observed, which the reporter was told before the run began, and the route accepted
  // nothing since.
  predicate Forgotten(h: History, k: nat, i: nat, r: Result)
    requires k < |h.reporters| && i < |h.calls|
  {
    var told := Lookup(h.start, NotifyKey(h.reporters[k].name, r.check));
    && LastAccepted(h, k, i, r.check).None?
    && h.LastSeen(i, r.check) == Some(StatusName(r.status))
    && told.Some? && told.value.status == StatusName(r.status)
  }

  /** Replaying the same calls from an emptied store delivers everything the original would, and
      more exactly where the result is accepted and its history forgotten. */
  lemma ColdStartExtras(h: History, k: nat, i: nat, r: Result)
    requires ChangeDriven(h, k) && i < |h.calls|
    ensures r in h.SliceAt(k, i) ==> r in Cold(h).SliceAt(k, i)
    ensures Extra(h, k, i, r)
      <==> r in h.calls[i].results && Accepts(h.reporters[k].route, r) && Forgotten(h, k, i, r)
  {
    hide Step, Handed, Find;
    ColdIsDriven(h, k);
    QuietMeansAgreed(h, k, i, r);
    QuietMeansAgreed(Cold(h), k, i, r);
    ToldIsLastAccepted(h, k, i, r.check);
    ToldIsLastAccepted(Cold(h), k, i, r.check);
    SeenAlikeOnceObserved(h, k, i, r.check);
  }

  lemma ColdIsDriven(h: History, k: nat)
    requires ChangeDriven(h, k)
    ensures ChangeDriven(Cold(h), k)
  {
    assert Reliable(h, h.reporters[k].name);
  }

  // So a reporter gets at most one more alert about a check: two of them are about two checks.
  lemma ColdStartAddsAtMostOne(h: History, k: nat, i: nat, r: Result, j: nat, q: Result)
    requires ChangeDriven(h, k) && i <= j < |h.calls|
    requires Extra(h, k, i, r) && Extra(h, k, j, q) && r.check == q.check
    ensures i == j && r == q
  {
    hide Extra, Step, Handed;
    ColdStartExtras(h, k, i, r);
    ColdStartExtras(h, k, j, q);
    FindMember(h.calls[i].results, r);
    FindMember(h.calls[j].results, q);
    if i < j { AcceptedStays(h, k, i + 1, j, r.check); }
  }

  lemma {:induction false} AcceptedStays(h: History, k: nat, i: nat, j: nat, c: string)
    requires k < |h.reporters| && i <= j <= |h.calls| && LastAccepted(h, k, i, c).Some?
    ensures LastAccepted(h, k, j, c).Some?
  {
    if i < j { AcceptedStays(h, k, i, j - 1, c); }
  }

  /** The additional alert falls on the check's first observation exactly when the replay sees
      nothing resurface there; a steady route never lets anything resurface. */
  lemma ColdStartAddsTheFirst(h: History, k: nat, i: nat, r: Result)
    requires ChangeDriven(h, k) && i < |h.calls| && Extra(h, k, i, r)
    ensures (forall j :: 0 <= j < i ==> h.Observed(j, r.check).None?) <==> !Resurfaces(Cold(h), k, i, r.check)
    ensures SteadyRoute(h, k) ==> forall j :: 0 <= j < i ==> h.Observed(j, r.check).None?
  {
    hide Extra, Step, Handed, Find;
    ColdStartExtras(h, k, i, r);
    FindMember(h.calls[i].results, r);
    SeenAlikeOnceObserved(h, k, i, r.check);
    ColdSeesObserved(h, i, r.check);
    if SteadyRoute(h, k) {
      assert SteadyRoute(Cold(h), k);
      SteadyNeverResurfaces(Cold(h), k, i, r.check);
    }
  }

  lemma {:induction false} ColdSeesObserved(h: History, i: nat, c: string)
    requires i <= |h.calls|
    ensures Cold(h).LastSeen(i, c).Some? <==> exists j :: 0 <= j < i && h.Observed(j, c).Some?
  {
    if i > 0 {
      ColdSeesObserved(h, i - 1, c);
      assert Cold(h).Observed(i - 1, c) == h.Observed(i - 1, c);
      if h.Observed(i - 1, c).None? && Cold(h).LastSeen(i - 1, c).Some? {
        var j :| 0 <= j < i - 1 && h.Observed(j, c).Some?;
      }
    }
  }

  // A check first seen without its tag: the duplicate comes at the second observation.
  function RetaggedReplay(): History {
    RetaggedCheck().(start := map[StatusKey("disk") := Entry(0, "warn"), NotifyKey("slack", "disk") := Entry(0, "warn")])
  }

  lemma ExtraAtSecondObservation()
    ensures var h := RetaggedReplay();
      ChangeDriven(h, 0) && Extra(h, 0, 1, h.calls[1].results[0]) && h.Observed(0, "disk").Some?
  {
    hide Step, Handed, Extra;
    var h := RetaggedReplay();
    KindsDiffer("disk", "slack", "disk");
    assert h.LastSeen(1, "disk") == Some("warn");
    assert "db" in h.calls[1].results[0].tags;
    ColdStartExtras(h, 0, 1, h.calls[1].results[0]);
  }

  /** One duplicate for each reporter, not one for each check: if a report of an unchanged result
      has reached a reporter, that reporter is told again after the store is lost. */
  lemma TheToldIsToldAgain(reps: seq<BoundReporter>, call: Call, r: Result, k: nat)
    requires k < |reps| && call.results == [r] && Accepts(reps[k].route, r)
    requires ChangeDriven(History(map[], reps, [call, call]), k)
    ensures Extra(History(Step(map[], reps, call), reps, [call]), k, 0, r)
  {
    hide Step, Handed, Extra;
    var g := History(map[], reps, [call, call]);
    var h := History(Step(map[], reps, call), reps, [call]);
    var c := r.check;
    assert g.At(0) == map[] && g.At(1) == h.start && Find(call.results, c) == Some(r);
    HandedWhen(g, k, 0, c);
    assert g.LastTold(k, 0, c).None?;
    assert g.LandedAt(k, 0, c);
    MemoryIsHistory(g, k, 1, c);
    assert CellOf(h.start, reps[k].name, c).seen == h.LastSeen(0, c);
    ColdStartExtras(h, k, 0, r);
  }

  // Two reporters, one check, two duplicates.
  lemma TwoReportersRepeat() returns (h: History, r: Result)
    ensures |h.reporters| == 2 && |h.calls| == 1 && ChangeDriven(h, 0) && ChangeDriven(h, 1)
    ensures Extra(h, 0, 0, r) && Extra(h, 1, 0, r)
  {
    hide Step, Handed, Extra;
    var everything := Route(OK, [], [], false, false, 0);
    var reps := [BoundReporter("slack", everything), BoundReporter("mail", everything)];
    r := Result("disk", Warn, "", []);
    var call := Call([r], 0, (name: string, slice: seq<Result>) => Delivered);
    assert "slack"[0] != "mail"[0];
    ColonFreeNamesSeparate(reps);
    assert ChangeDriven(History(map[], reps, [call, call]), 0) && ChangeDriven(History(map[], reps, [call, call]), 1);
    TheToldIsToldAgain(reps, call, r, 0);
    TheToldIsToldAgain(reps, call, r, 1);
    h := History(Step(map[], reps, call), reps, [call]);
  }
}
