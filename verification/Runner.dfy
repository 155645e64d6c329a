/** The runner's reporting loop over the shared store (internal/runner/runner.go). */
module Runner {
  import opened Text
  import opened Selection
  import opened Check
  import opened State
  import opened Routing
  import opened Engine

  class Reporting {
    const reporters: seq<BoundReporter>
    const store: Store

    constructor (reporters: seq<BoundReporter>, store: Store)
      ensures this.reporters == reporters && this.store == store
    {
      this.reporters := reporters;
      this.store := store;
    }

    /** Routes results to every reporter. `deliver` answers each delivery and `diskOk` the save;
        `handed` lists the slice each reporter was called with, empty where it was not called. */
    method Report(results: seq<Result>, now: int, deliver: (string, seq<Result>) -> Outcome, diskOk: bool)
      returns (handed: seq<seq<Result>>, errs: seq<ReportError>)
      modifies store`entries
      modifies (if store.file == null then {} else {store.file})`content
      ensures var call := Call(results, now, deliver);
        && store.entries == Step(old(store.entries), reporters, call)
        && handed == Handed(old(store.entries), reporters, call)
        && (store.file != null ==> store.file.content == SavedAfter(
              old(store.file.content), Dirty(old(store.entries), reporters, call) && diskOk, store.entries))
        && errs == Errors(old(store.entries), reporters, call, store.file == null || diskOk)
    {
      var changed := TakeSnapshot(results);
      var dirty;
      handed, errs, dirty := NotifyAll(results, changed, now, deliver);
      var observed := Observe(results, changed, now);
      if dirty || observed {
        var ok := store.Flush(diskOk);
        if !ok { errs := errs + [PersistFailed]; }
      }
    }

    // The loop of Report over the reporters, up to the saving of statuses.
    method NotifyAll(results: seq<Result>, changed: map<string, bool>, now: int,
                     deliver: (string, seq<Result>) -> Outcome)
      returns (handed: seq<seq<Result>>, errs: seq<ReportError>, dirty: bool)
      modifies store`entries
      ensures var call := Call(results, now, deliver);
        && handed == Slices(old(store.entries), reporters, changed, call)
        && store.entries == Notify(old(store.entries), reporters, changed, call)
        && errs == Failures(reporters, handed, call)
        && (dirty <==> AnyRecords(reporters, handed, call))
    {
      hide Slice, After, Records;
      ghost var before, call := store.entries, Call(results, now, deliver);
      ghost var slices := Slices(before, reporters, changed, call);
      handed, errs, dirty := [], [], false;
      for k := 0 to |reporters|
        invariant handed == slices[..k]
        invariant Slices(store.entries, reporters[k..], changed, call) == slices[k..]
        invariant Notify(store.entries, reporters[k..], changed, call) == Notify(before, reporters, changed, call)
        invariant errs == Failures(reporters[..k], slices[..k], call)
        invariant dirty <==> AnyRecords(reporters[..k], slices[..k], call)
      {
        TurnUnrolls(store.entries, reporters, slices, k, changed, call);
        assert slices[..k + 1] == slices[..k] + [slices[k]];
        var slice, failed, wrote := Turn(reporters[k], results, changed, now, deliver);
        handed := handed + [slice];
        if failed { errs := errs + [DeliveryFailed(reporters[k].name)]; }
        dirty := dirty || wrote;
      }
      assert reporters[..|reporters|] == reporters && slices[..|reporters|] == slices;
    }

    // One reporter's turn in the loop of Report.
    method Turn(rep: BoundReporter, results: seq<Result>, changed: map<string, bool>, now: int,
                deliver: (string, seq<Result>) -> Outcome)
      returns (slice: seq<Result>, failed: bool, wrote: bool)
      modifies store`entries
      ensures var call := Call(results, now, deliver);
        && slice == Slice(old(store.entries), rep, changed, call)
        && store.entries == After(old(store.entries), rep, changed, call)
        && (failed <==> slice != [] && deliver(rep.name, slice) != Delivered)
        && (wrote <==> Records(rep, slice, call))
    {
      failed, wrote := false, false;
      slice := Filter(rep.route, results);
      if !rep.route.repeatAlerts {
        slice := Unnotified(rep, slice, changed, now);
      }
      if slice == [] { return; }
      var outcome := deliver(rep.name, slice);
      if outcome != Delivered {
        failed := true;
        if outcome.Failed? {
          MarksNothing(rep.name, slice, now);
          return;
        }
      }
      if rep.route.repeatAlerts { return; }
      wrote := MarkDelivered(rep.name, slice, outcome, now);
    }

    method TakeSnapshot(results: seq<Result>) returns (changed: map<string, bool>)
      ensures changed == Snapshot(store.entries, results)
    {
      changed := map[];
      for i := 0 to |results|
        invariant changed + Snapshot(store.entries, results[i..]) == Snapshot(store.entries, results)
      {
        SnapshotUnrolls(store.entries, results, i, changed);
        var last := store.Get(StatusKey(results[i].check));
        changed := changed[results[i].check := last.None? || last.value.status != StatusName(results[i].status)];
      }
    }

    method Unnotified(rep: BoundReporter, results: seq<Result>, changed: map<string, bool>, now: int)
      returns (out: seq<Result>)
      ensures out == Keep(results, Wanting(store.entries, rep, changed, now))
    {
      out := [];
      ghost var wanting := Wanting(store.entries, rep, changed, now);
      for i := 0 to |results|
        invariant out + Keep(results[i..], wanting) == Keep(results, wanting)
      {
        assert results[i..][0] == results[i] && results[i..][1..] == results[i + 1..];
        var r := results[i];
        var last := store.Get(NotifyKey(rep.name, r.check));
        var send :=
          || On(changed, r.check)
          || last.None?
          || last.value.status != StatusName(r.status)
          || (rep.route.dedupeWindow > 0 && now - last.value.time >= rep.route.dedupeWindow);
        if send { out := out + [r]; }
      }
    }

    method MarkDelivered(name: string, slice: seq<Result>, outcome: Outcome, now: int) returns (wrote: bool)
      modifies store`entries
      ensures store.entries == old(store.entries) + Marks(name, slice, outcome, now)
      ensures wrote <==> exists r :: r in slice && Lands(outcome, r.check)
    {
      wrote := false;
      for i := 0 to |slice|
        invariant store.entries + Marks(name, slice[i..], outcome, now)
          == old(store.entries) + Marks(name, slice, outcome, now)
        invariant wrote <==> exists r :: r in slice[..i] && Lands(outcome, r.check)
      {
        MarksUnroll(store.entries, name, slice, i, outcome, now);
        assert slice[..i + 1] == slice[..i] + [slice[i]];
        if Lands(outcome, slice[i].check) {
          store.Set(NotifyKey(name, slice[i].check), Entry(now, StatusName(slice[i].status)));
          wrote := true;
        }
      }
    }

    method Observe(results: seq<Result>, changed: map<string, bool>, now: int) returns (wrote: bool)
      modifies store`entries
      ensures store.entries == old(store.entries) + Observations(results, changed, now)
      ensures wrote <==> exists r :: r in results && On(changed, r.check)
    {
      wrote := false;
      for i := 0 to |results|
        invariant store.entries + Observations(results[i..], changed, now)
          == old(store.entries) + Observations(results, changed, now)
        invariant wrote <==> exists r :: r in results[..i] && On(changed, r.check)
      {
        ObservationsUnroll(store.entries, results, i, changed, now);
        assert results[..i + 1] == results[..i] + [results[i]];
        if On(changed, results[i].check) {
          store.Set(StatusKey(results[i].check), Entry(now, StatusName(results[i].status)));
          wrote := true;
        }
      }
    }
  }

  function SavedAfter(content: FileContent, saved: bool, entries: Entries): FileContent {
    if saved then Saved(entries) else content
  }

  // One turn of each loop, seen from its specification.
  lemma TurnUnrolls(entries: Entries, reps: seq<BoundReporter>, slices: seq<seq<Result>>, k: nat,
                    changed: map<string, bool>, call: Call)
    requires k < |reps| == |slices|
    requires Slices(entries, reps[k..], changed, call) == slices[k..]
    ensures var next := After(entries, reps[k], changed, call);
      && Slice(entries, reps[k], changed, call) == slices[k]
      && Slices(next, reps[k + 1..], changed, call) == slices[k + 1..]
      && Notify(next, reps[k + 1..], changed, call) == Notify(entries, reps[k..], changed, call)
    ensures var earlier := Failures(reps[..k], slices[..k], call);
      Failures(reps[..k + 1], slices[..k + 1], call)
        == if slices[k] != [] && call.deliver(reps[k].name, slices[k]) != Delivered
           then earlier + [DeliveryFailed(reps[k].name)] else earlier
    ensures AnyRecords(reps[..k + 1], slices[..k + 1], call)
      <==> AnyRecords(reps[..k], slices[..k], call) || Records(reps[k], slices[k], call)
  {
    assert reps[k..][0] == reps[k] && reps[k..][1..] == reps[k + 1..];
    assert slices[k..][0] == slices[k] && slices[k..][1..] == slices[k + 1..];
    assert reps[..k + 1][..k] == reps[..k] && slices[..k + 1][..k] == slices[..k];
  }

  lemma SnapshotUnrolls(entries: Entries, results: seq<Result>, i: nat, changed: map<string, bool>)
    requires i < |results|
    ensures changed + Snapshot(entries, results[i..])
      == changed[results[i].check := Moved(entries, results[i])] + Snapshot(entries, results[i + 1..])
  {
    assert results[i..][0] == results[i] && results[i..][1..] == results[i + 1..];
  }

  lemma MarksUnroll(entries: Entries, name: string, slice: seq<Result>, i: nat, o: Outcome, now: int)
    requires i < |slice|
    ensures entries + Marks(name, slice[i..], o, now)
      == (if Lands(o, slice[i].check)
          then entries[NotifyKey(name, slice[i].check) := Entry(now, StatusName(slice[i].status))]
          else entries) + Marks(name, slice[i + 1..], o, now)
  {
    assert slice[i..][0] == slice[i] && slice[i..][1..] == slice[i + 1..];
  }

  lemma ObservationsUnroll(entries: Entries, results: seq<Result>, i: nat, changed: map<string, bool>, now: int)
    requires i < |results|
    ensures entries + Observations(results[i..], changed, now)
      == (if On(changed, results[i].check)
          then entries[StatusKey(results[i].check) := Entry(now, StatusName(results[i].status))]
          else entries) + Observations(results[i + 1..], changed, now)
  {
    assert results[i..][0] == results[i] && results[i..][1..] == results[i + 1..];
  }

  lemma {:induction false} MarksNothing(name: string, slice: seq<Result>, now: int)
    ensures Marks(name, slice, Failed, now) == map[]
  {
    if slice != [] { MarksNothing(name, slice[1..], now); }
  }
}
