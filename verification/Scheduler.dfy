/** Running checks, all at once or by schedule group (internal/runner/runner.go,
    internal/scheduler/scheduler.go). */
module Scheduler {
  import opened Text
  import opened Selection
  import opened Check
  import opened Sorting

  const DEFAULT_SCHEDULE: string := "@every 1m"

  datatype BoundCheck = BoundCheck(name: string, schedule: string, tags: seq<string>)

  predicate UniqueNames(checks: seq<BoundCheck>) {
    forall i, j :: 0 <= i < j < |checks| ==> checks[i].name != checks[j].name
  }

  // --- One check ----------------------------------------------------------------------------

  predicate NoRepeats(s: seq<string>) {
    forall i, j :: 0 <= i < j < |s| ==> s[i] != s[j]
  }

  // Each string once, where it first occurs.
  function FirstOccurrences(s: seq<string>): (r: seq<string>)
    ensures forall t :: t in r <==> t in s
    ensures NoRepeats(r)
  {
    if s == [] then []
    else
      var last := |s| - 1;
      assert s == s[..last] + [s[last]];
      var earlier := FirstOccurrences(s[..last]);
      if s[last] in earlier then earlier else earlier + [s[last]]
  }

  // They stand in the order in which they first occur.
  lemma {:induction false} FirstOccurrencesInOrder(s: seq<string>, i: nat, j: nat)
    requires i < j < |FirstOccurrences(s)|
    ensures IndexOf(s, FirstOccurrences(s)[i]) < IndexOf(s, FirstOccurrences(s)[j]) < |s|
  {
    var last := |s| - 1;
    var init, r := s[..last], FirstOccurrences(s);
    var earlier := FirstOccurrences(init);
    assert s == init + [s[last]];
    if j < |earlier| { FirstOccurrencesInOrder(init, i, j); }
    IndexStays(init, s[last], r[i]);
    IndexStays(init, s[last], r[j]);
    assert r[i] in earlier;
  }

  lemma IndexStays(s: seq<string>, x: string, t: string)
    requires t in s || t == x
    ensures IndexOf(s + [x], t) == if t in s then IndexOf(s, t) else |s|
  {
    var i := IndexOf(s + [x], t);
    assert t in s + [x];
    assert i < |s| ==> (s + [x])[i] == s[i];
    assert IndexOf(s, t) < |s| ==> (s + [x])[IndexOf(s, t)] == t;
  }

  function MergedTags(a: seq<string>, b: seq<string>): seq<string> {
    if b == [] then a else FirstOccurrences(a + b)
  }

  method MergeTags(a: seq<string>, b: seq<string>) returns (out: seq<string>)
    ensures out == MergedTags(a, b)
    ensures b == [] ==> out == a
    ensures forall t :: t in out <==> t in a || t in b
    ensures b != [] ==> NoRepeats(out)
  {
    if b == [] { return a; }
    var seen: set<string> := {};
    var all := a + b;
    out := [];
    for i := 0 to |all|
      invariant forall t :: t in seen <==> t in all[..i]
      invariant out == FirstOccurrences(all[..i])
    {
      assert all[..i + 1][..i] == all[..i];
      if all[i] !in seen {
        seen := seen + {all[i]};
        out := out + [all[i]];
      }
    }
    assert all[..|all|] == all;
  }

  // What a run of a check comes to; raw is what the check returned, or None when it panicked.
  function Completed(c: BoundCheck, raw: Option<Result>): Result {
    var returned := if raw.Some? then raw.value else Result(c.name, Unknown, "check panicked", []);
    returned.(tags := MergedTags(returned.tags, c.tags))
  }

  method RunOne(c: BoundCheck, raw: Option<Result>) returns (r: Result)
    ensures r == Completed(c, raw)
    ensures raw.None? ==> r.check == c.name && r.status == Unknown
    ensures raw.Some? ==> r.check == raw.value.check && r.status == raw.value.status && r.summary == raw.value.summary
    ensures forall t :: t in r.tags <==> t in c.tags || (raw.Some? && t in raw.value.tags)
  {
    r := if raw.Some? then raw.value else Result(c.name, Unknown, "check panicked", []);
    var tags := MergeTags(r.tags, c.tags);
    r := r.(tags := tags);
  }

  // How every check of a run comes out, given what each returns.
  function Running(raw: BoundCheck -> Option<Result>): BoundCheck -> Result {
    (c: BoundCheck) => Completed(c, raw(c))
  }

  // Each check's result carries the check's own name.
  ghost predicate NamesItself(run: BoundCheck -> Result) {
    forall c :: run(c).check == c.name
  }

  // It does exactly if every check that returns labels its result so: panics are labelled already.
  lemma RunningNamesItself(raw: BoundCheck -> Option<Result>)
    ensures NamesItself(Running(raw)) <==> forall c :: raw(c).Some? ==> raw(c).value.check == c.name
  {
    if NamesItself(Running(raw)) {
      forall c | raw(c).Some? ensures raw(c).value.check == c.name {
        assert Running(raw)(c).check == c.name;
      }
    }
  }

  // --- Concurrent runs ------------------------------------------------------------------------

  function Outcomes(checks: seq<BoundCheck>, run: BoundCheck -> Result): seq<Result> {
    seq(|checks|, i requires 0 <= i < |checks| => run(checks[i]))
  }

  // The goroutines fill their slots in any order, and the caller waits for all of them.
  predicate AllFinish(order: seq<nat>, n: nat) {
    && (forall p :: 0 <= p < |order| ==> order[p] < n)
    && (forall i: nat :: i < n ==> i in order)
  }

  method RunAll(checks: seq<BoundCheck>, raw: BoundCheck -> Option<Result>, order: seq<nat>)
    returns (results: seq<Result>)
    requires AllFinish(order, |checks|)
    ensures results == SortByCheck(Outcomes(checks, Running(raw)))
    ensures UniqueNames(checks) && NamesItself(Running(raw)) ==> ListsRuns(checks, raw, results)
  {
    var slots := new Result[|checks|];
    for p := 0 to |order|
      invariant forall q :: 0 <= q < p ==> slots[order[q]] == Running(raw)(checks[order[q]])
    {
      slots[order[p]] := RunOne(checks[order[p]], raw(checks[order[p]]));
    }
    forall i: nat | i < |checks| ensures slots[i] == Running(raw)(checks[i]) {
      assert i in order;
    }
    assert slots[..] == Outcomes(checks, Running(raw));
    results := SortByCheck(slots[..]);
    if UniqueNames(checks) && NamesItself(Running(raw)) { RunsListed(checks, raw); }
  }

  function Named(names: seq<string>): BoundCheck -> bool {
    (c: BoundCheck) => c.name in names
  }

  method RunSelected(checks: seq<BoundCheck>, names: seq<string>, raw: BoundCheck -> Option<Result>, order: seq<nat>)
    returns (results: seq<Result>)
    requires AllFinish(order, |Keep(checks, Named(names))|)
    ensures results == SortByCheck(Outcomes(Keep(checks, Named(names)), Running(raw)))
    ensures UniqueNames(checks) && NamesItself(Running(raw)) ==>
      ListsRuns(Keep(checks, (c: BoundCheck) => c.name in names), raw, results)
  {
    var want: set<string> := {};
    for i := 0 to |names|
      invariant forall n :: n in want <==> n in names[..i]
    {
      want := want + {names[i]};
    }
    var selected: seq<BoundCheck> := [];
    for i := 0 to |checks|
      invariant selected + Keep(checks[i..], Named(names)) == Keep(checks, Named(names))
    {
      assert checks[i..][0] == checks[i] && checks[i..][1..] == checks[i + 1..];
      assert names[..|names|] == names;
      if checks[i].name in want { selected := selected + [checks[i]]; }
    }
    assert names[..|names|] == names && selected == Keep(checks, Named(names));
    results := RunAll(selected, raw, order);
    KeepAgree(checks, Named(names), (c: BoundCheck) => c.name in names);
    if UniqueNames(checks) { KeepUnique(checks, Named(names)); }
  }

  // --- Groups ---------------------------------------------------------------------------------

  function Effective(c: BoundCheck): string {
    if c.schedule == "" then DEFAULT_SCHEDULE else c.schedule
  }

  // Names of the checks on a schedule, in declaration order.
  function NamesOn(checks: seq<BoundCheck>, schedule: string): seq<string> {
    if checks == [] then []
    else
      var last := |checks| - 1;
      var earlier := NamesOn(checks[..last], schedule);
      if Effective(checks[last]) == schedule then earlier + [checks[last].name] else earlier
  }

  ghost predicate IsGrouping(checks: seq<BoundCheck>, groups: map<string, seq<string>>) {
    && (forall s :: s in groups <==> exists c :: c in checks && Effective(c) == s)
    && (forall s :: s in groups ==> groups[s] == NamesOn(checks, s))
  }

  method GroupBySchedule(checks: seq<BoundCheck>) returns (groups: map<string, seq<string>>)
    ensures IsGrouping(checks, groups)
    ensures forall c :: c in checks ==> (if c.schedule == "" then "@every 1m" else c.schedule) in groups
  {
    groups := map[];
    for i := 0 to |checks|
      invariant IsGrouping(checks[..i], groups)
    {
      var schedule := checks[i].schedule;
      if schedule == "" { schedule := DEFAULT_SCHEDULE; }
      GroupingGrows(checks, i, groups);
      groups := groups[schedule := (if schedule in groups then groups[schedule] else []) + [checks[i].name]];
    }
    assert checks[..|checks|] == checks;
  }

  function OnSchedule(s: string): BoundCheck -> bool {
    (c: BoundCheck) => c.schedule == s || (c.schedule == "" && s == "@every 1m")
  }

  // A group lists the names of its checks in the order of their declaration. A check without a
  // schedule runs every minute.
  lemma {:induction false} NamesOnInOrder(checks: seq<BoundCheck>, s: string)
    requires s != ""
    ensures var kept := Keep(checks, OnSchedule(s));
      |NamesOn(checks, s)| == |kept| && forall i :: 0 <= i < |kept| ==> NamesOn(checks, s)[i] == kept[i].name
  {
    hide Keep;
    if checks == [] {
      KeepNone(checks, OnSchedule(s));
    } else {
      var last := |checks| - 1;
      NamesOnInOrder(checks[..last], s);
      KeepLast(checks[..last], checks[last], OnSchedule(s));
      assert checks == checks[..last] + [checks[last]];
    }
  }

  lemma {:induction false} NamesOnMember(checks: seq<BoundCheck>, s: string, name: string)
    ensures name in NamesOn(checks, s) <==> exists c :: c in checks && c.name == name && Effective(c) == s
  {
    if checks != [] {
      var last := |checks| - 1;
      NamesOnMember(checks[..last], s, name);
      assert checks == checks[..last] + [checks[last]];
    }
  }

  lemma GroupingGrows(checks: seq<BoundCheck>, i: nat, groups: map<string, seq<string>>)
    requires i < |checks| && IsGrouping(checks[..i], groups)
    ensures var s := Effective(checks[i]);
      IsGrouping(checks[..i + 1], groups[s := (if s in groups then groups[s] else []) + [checks[i].name]])
  {
    hide Effective;
    var s := Effective(checks[i]);
    var next := checks[..i + 1];
    assert next[..i] == checks[..i] && next == checks[..i] + [checks[i]];
    if s !in groups && NamesOn(checks[..i], s) != [] {
      NamesOnMember(checks[..i], s, NamesOn(checks[..i], s)[0]);
    }
  }

  // --- The groups partition the work ------------------------------------------------------------

  lemma SameCheck(checks: seq<BoundCheck>, c: BoundCheck, d: BoundCheck)
    requires UniqueNames(checks) && c in checks && d in checks && c.name == d.name
    ensures c == d
  {
    var i :| 0 <= i < |checks| && checks[i] == c;
    var j :| 0 <= j < |checks| && checks[j] == d;
    assert i == j;
  }

  lemma {:induction false} NamesOnOnce(checks: seq<BoundCheck>, s: string)
    requires UniqueNames(checks)
    ensures NoRepeats(NamesOn(checks, s))
  {
    if checks != [] {
      var last := |checks| - 1;
      NamesOnOnce(checks[..last], s);
      NamesOnMember(checks[..last], s, checks[last].name);
    }
  }

  /** Every configured check is in exactly one group, once. */
  lemma GroupsCoverOnce(checks: seq<BoundCheck>, groups: map<string, seq<string>>, c: BoundCheck)
    requires UniqueNames(checks) && IsGrouping(checks, groups) && c in checks
    ensures Effective(c) in groups && c.name in groups[Effective(c)]
    ensures forall s :: s in groups && c.name in groups[s] ==> s == Effective(c)
    ensures forall s :: s in groups ==> NoRepeats(groups[s])
  {
    NamesOnMember(checks, Effective(c), c.name);
    forall s | s in groups && c.name in groups[s] ensures s == Effective(c) {
      NamesOnMember(checks, s, c.name);
      var d :| d in checks && d.name == c.name && Effective(d) == s;
      SameCheck(checks, c, d);
    }
    forall s | s in groups ensures NoRepeats(groups[s]) { NamesOnOnce(checks, s); }
  }

  // What one group run yields.
  function GroupRun(checks: seq<BoundCheck>, names: seq<string>, run: BoundCheck -> Result): seq<Result> {
    SortByCheck(Outcomes(Keep(checks, Named(names)), run))
  }

  // All groups' results, group after group.
  function Merged(checks: seq<BoundCheck>, groups: map<string, seq<string>>, schedules: seq<string>,
                  run: BoundCheck -> Result): seq<Result>
    requires forall s :: s in schedules ==> s in groups
  {
    if schedules == [] then []
    else
      var last := |schedules| - 1;
      Merged(checks, groups, schedules[..last], run) + GroupRun(checks, groups[schedules[last]], run)
  }

  // A result of a check on one of the schedules.
  ghost predicate Ran(checks: seq<BoundCheck>, schedules: seq<string>, run: BoundCheck -> Result, r: Result) {
    exists c :: c in checks && Effective(c) in schedules && r == run(c)
  }

  lemma {:induction false} KeepUnique(checks: seq<BoundCheck>, p: BoundCheck -> bool)
    requires UniqueNames(checks)
    ensures UniqueNames(Keep(checks, p))
  {
    if checks != [] {
      KeepUnique(checks[1..], p);
      forall c | c in Keep(checks[1..], p) ensures c.name != checks[0].name { KeepMember(checks[1..], p, c); }
    }
  }

  lemma OutcomesListed(checks: seq<BoundCheck>, run: BoundCheck -> Result)
    requires UniqueNames(checks) && NamesItself(run)
    ensures ByName(SortByCheck(Outcomes(checks, run)))
    ensures forall r :: r in SortByCheck(Outcomes(checks, run)) <==> exists c :: c in checks && r == run(c)
  {
    var o := Outcomes(checks, run);
    SortSorts(o);
    forall r ensures r in SortByCheck(o) <==> exists c :: c in checks && r == run(c) {
      assert r in multiset(SortByCheck(o)) <==> r in multiset(o);
      if c :| c in checks && r == run(c) {
        var i :| 0 <= i < |checks| && checks[i] == c;
        assert o[i] == r;
      }
    }
  }

  // One result of each check, by name in dictionary order.
  ghost predicate ListsRuns(checks: seq<BoundCheck>, raw: BoundCheck -> Option<Result>, results: seq<Result>) {
    && |results| == |checks|
    && (forall c :: c in checks ==> Completed(c, raw(c)) in results)
    && DictionaryOrder(results)
  }

  lemma RunsListed(checks: seq<BoundCheck>, raw: BoundCheck -> Option<Result>)
    requires UniqueNames(checks) && NamesItself(Running(raw))
    ensures ListsRuns(checks, raw, SortByCheck(Outcomes(checks, Running(raw))))
  {
    hide SortByCheck, DiffersFirstAt, Completed;
    var o := Outcomes(checks, Running(raw));
    var sorted := SortByCheck(o);
    OutcomesListed(checks, Running(raw));
    SortSorts(o);
    assert |multiset(sorted)| == |multiset(o)|;
    OrderedByDictionary(sorted);
    forall c | c in checks ensures Completed(c, raw(c)) in sorted { assert Running(raw)(c) == Completed(c, raw(c)); }
  }

  lemma GroupRunListed(checks: seq<BoundCheck>, groups: map<string, seq<string>>, s: string, run: BoundCheck -> Result)
    requires UniqueNames(checks) && NamesItself(run) && IsGrouping(checks, groups) && s in groups
    ensures ByName(GroupRun(checks, groups[s], run))
    ensures forall r :: r in GroupRun(checks, groups[s], run) <==> Ran(checks, [s], run, r)
  {
    var names := groups[s];
    var kept := Keep(checks, Named(names));
    KeepUnique(checks, Named(names));
    OutcomesListed(kept, run);
    forall c ensures c in kept <==> c in checks && Effective(c) == s {
      KeepMember(checks, Named(names), c);
      NamesOnMember(checks, s, c.name);
      if c in checks { GroupsCoverOnce(checks, groups, c); }
    }
  }

  lemma {:induction false} MergedListed(checks: seq<BoundCheck>, groups: map<string, seq<string>>, schedules: seq<string>,
                                        run: BoundCheck -> Result)
    requires UniqueNames(checks) && NamesItself(run) && IsGrouping(checks, groups)
    requires NoRepeats(schedules) && forall s :: s in schedules ==> s in groups
    ensures Distinct(Merged(checks, groups, schedules, run))
    ensures forall r :: r in Merged(checks, groups, schedules, run) <==> Ran(checks, schedules, run, r)
  {
    hide IsGrouping, GroupRun, UniqueNames, Effective;
    if schedules != [] {
      var last := |schedules| - 1;
      var before := Merged(checks, groups, schedules[..last], run);
      var here := GroupRun(checks, groups[schedules[last]], run);
      MergedListed(checks, groups, schedules[..last], run);
      GroupRunListed(checks, groups, schedules[last], run);
      OrderedDistinct(here);
      assert schedules == schedules[..last] + [schedules[last]];
      forall r, q | r in before && q in here ensures r.check != q.check {
        var c :| c in checks && Effective(c) in schedules[..last] && r == run(c);
        var d :| d in checks && Effective(d) == schedules[last] && q == run(d);
        if c.name == d.name { SameCheck(checks, c, d); }
      }
      ConcatDistinct(before, here);
    }
  }

  lemma ConcatDistinct(a: seq<Result>, b: seq<Result>)
    requires Distinct(a) && Distinct(b)
    requires forall r, q :: r in a && q in b ==> r.check != q.check
    ensures Distinct(a + b)
  {
  }

  /** Merging the runs of all groups, in whatever order they ran, gives the results of running
      everything at once. */
  lemma GroupsPartitionTheWork(checks: seq<BoundCheck>, groups: map<string, seq<string>>, schedules: seq<string>,
                               run: BoundCheck -> Result)
    requires UniqueNames(checks) && NamesItself(run) && IsGrouping(checks, groups)
    requires NoRepeats(schedules) && forall s :: s in schedules <==> s in groups
    ensures SortByCheck(Merged(checks, groups, schedules, run)) == SortByCheck(Outcomes(checks, run))
    ensures ByName(SortByCheck(Outcomes(checks, run)))
  {
    hide Merged, Outcomes, SortByCheck;
    var m := Merged(checks, groups, schedules, run);
    var all := SortByCheck(Outcomes(checks, run));
    MergedListed(checks, groups, schedules, run);
    SortSorts(m);
    OutcomesListed(checks, run);
    forall c | c in checks ensures Effective(c) in schedules { GroupsCoverOnce(checks, groups, c); }
    forall r ensures r in SortByCheck(m) <==> r in all {
      assert Ran(checks, schedules, run, r) <==> exists c :: c in checks && r == run(c);
      assert r in multiset(SortByCheck(m)) <==> r in multiset(m);
    }
    ListingUnique(SortByCheck(m), all);
  }

  // Results of two different groups are about different checks, so their Reports never meet.
  lemma GroupsAreDisjoint(checks: seq<BoundCheck>, groups: map<string, seq<string>>, s: string, run1: BoundCheck -> Result,
                          t: string, run2: BoundCheck -> Result)
    requires UniqueNames(checks) && NamesItself(run1) && NamesItself(run2) && IsGrouping(checks, groups)
    requires s in groups && t in groups && s != t
    ensures forall r, q :: r in GroupRun(checks, groups[s], run1) && q in GroupRun(checks, groups[t], run2) ==> r.check != q.check
  {
    hide GroupRun, Effective;
    GroupRunListed(checks, groups, s, run1);
    GroupRunListed(checks, groups, t, run2);
    forall r, q | r in GroupRun(checks, groups[s], run1) && q in GroupRun(checks, groups[t], run2) ensures r.check != q.check {
      var c :| c in checks && Effective(c) == s && r == run1(c);
      var d :| d in checks && Effective(d) == t && q == run2(d);
      if c.name == d.name { SameCheck(checks, c, d); }
    }
  }
}
