/** What a report complains about, and when it writes and saves at all (internal/runner/runner.go). */
module Complaints {
  import opened Text
  import opened Check
  import opened State
  import opened Routing
  import opened Engine
  import opened EngineFacts
  import opened Histories

  // --- When a report writes ---------------------------------------------------------------------

  lemma {:induction false} SomeoneRecords(reps: seq<BoundReporter>, slices: seq<seq<Result>>, call: Call)
    requires |reps| == |slices|
    ensures AnyRecords(reps, slices, call) <==> exists k :: 0 <= k < |reps| && Records(reps[k], slices[k], call)
  {
    hide Records;
    if reps != [] {
      var last := |reps| - 1;
      SomeoneRecords(reps[..last], slices[..last], call);
      if AnyRecords(reps[..last], slices[..last], call) {
        var k :| 0 <= k < last && Records(reps[..last][k], slices[..last][k], call);
        assert Records(reps[k], slices[k], call);
      }
      if k :| 0 <= k < |reps| && Records(reps[k], slices[k], call) {
        assert k < last ==> reps[..last][k] == reps[k] && slices[..last][k] == slices[k];
      }
    }
  }

  predicate StatusMoved(h: History, i: nat, c: string)
    requires i < |h.calls|
  {
    h.Observed(i, c).Some? && h.LastSeen(i, c) != Some(StatusName(h.Observed(i, c).value.status))
  }

  ghost predicate SomethingLanded(h: History, i: nat)
    requires i < |h.calls|
  {
    exists k, c :: 0 <= k < |h.reporters| && !h.reporters[k].route.repeatAlerts && h.LandedAt(k, i, c)
  }

  lemma RecordsWhenLanded(h: History, k: nat, i: nat)
    requires h.Valid() && k < |h.reporters| && i < |h.calls|
    ensures Records(h.reporters[k], h.SliceAt(k, i), h.calls[i])
      <==> !h.reporters[k].route.repeatAlerts && exists c :: h.LandedAt(k, i, c)
  {
    hide Step, Handed, Find, Lands;
    var slice, o := h.SliceAt(k, i), h.calls[i].deliver(h.reporters[k].name, h.SliceAt(k, i));
    if r :| r in slice && Lands(o, r.check) {
      HandedProjects(h.At(i), h.reporters, k, h.calls[i], r);
      FindMember(h.calls[i].results, r);
      assert h.LandedAt(k, i, r.check);
    }
    if c :| h.LandedAt(k, i, c) { FindNone(h.calls[i].results, c); }
  }

  lemma MovedWhenChanged(h: History, i: nat)
    requires h.Valid() && i < |h.calls|
    ensures (exists r :: r in h.calls[i].results && On(Snapshot(h.At(i), h.calls[i].results), r.check))
      <==> exists c :: StatusMoved(h, i, c)
  {
    hide Step, Find;
    var results, entries := h.calls[i].results, h.At(i);
    forall r | r in results
      ensures On(Snapshot(entries, results), r.check) <==> StatusMoved(h, i, r.check)
    {
      SnapshotAt(entries, results, r);
      StatusEntryIsLastChange(h, i, r.check);
      FindMember(results, r);
    }
    if c :| StatusMoved(h, i, c) {
      FindNone(results, c);
      assert h.Observed(i, c).value in results;
    }
  }

  /** A report writes, and so saves, exactly if it observed a check at a new status or told a reporter
      that keeps count something that got through. */
  lemma WritesWhenNews(h: History, i: nat)
    requires h.Valid() && i < |h.calls|
    ensures Dirty(h.At(i), h.reporters, h.calls[i])
      <==> (exists c :: StatusMoved(h, i, c)) || SomethingLanded(h, i)
  {
    hide Step, Handed, Records, StatusMoved, History.LandedAt, Snapshot, On;
    SomeoneRecords(h.reporters, Handed(h.At(i), h.reporters, h.calls[i]), h.calls[i]);
    MovedWhenChanged(h, i);
    forall k: nat | k < |h.reporters|
      ensures Records(h.reporters[k], h.SliceAt(k, i), h.calls[i])
        <==> !h.reporters[k].route.repeatAlerts && exists c :: h.LandedAt(k, i, c)
    {
      RecordsWhenLanded(h, k, i);
    }
  }

  // --- What it complains about --------------------------------------------------------------------

  predicate Undelivered(reps: seq<BoundReporter>, slices: seq<seq<Result>>, call: Call, k: nat)
    requires k < |reps| == |slices|
  {
    slices[k] != [] && call.deliver(reps[k].name, slices[k]) != Delivered
  }

  // The complaints about deliveries name exactly these reporters, in their order.
  ghost predicate ListsUndelivered(reps: seq<BoundReporter>, slices: seq<seq<Result>>, call: Call, ks: seq<nat>,
                                   errs: seq<ReportError>)
    requires |reps| == |slices|
  {
    && (forall i, j :: 0 <= i < j < |ks| ==> ks[i] < ks[j])
    && (forall k: nat :: k in ks <==> k < |reps| && Undelivered(reps, slices, call, k))
    && |errs| == |ks| && forall i :: 0 <= i < |ks| ==> ks[i] < |reps| && errs[i] == DeliveryFailed(reps[ks[i]].name)
  }

  lemma {:induction false} FailuresListed(reps: seq<BoundReporter>, slices: seq<seq<Result>>, call: Call)
    returns (ks: seq<nat>)
    requires |reps| == |slices|
    ensures ListsUndelivered(reps, slices, call, ks, Failures(reps, slices, call))
  {
    if reps == [] {
      ks := [];
    } else {
      var last := |reps| - 1;
      ks := FailuresListed(reps[..last], slices[..last], call);
      forall i | 0 <= i < |ks| ensures ks[i] < last { assert ks[i] in ks; }
      if Undelivered(reps, slices, call, last) {
        FailuresGrow(reps, slices, call, ks);
        ks := ks + [last];
      } else {
        FailuresStay(reps, slices, call, ks);
      }
    }
  }

  lemma FailuresGrow(reps: seq<BoundReporter>, slices: seq<seq<Result>>, call: Call, ks: seq<nat>)
    requires 0 < |reps| == |slices| && Undelivered(reps, slices, call, |reps| - 1)
    requires var last := |reps| - 1;
      ListsUndelivered(reps[..last], slices[..last], call, ks, Failures(reps[..last], slices[..last], call))
    ensures ListsUndelivered(reps, slices, call, ks + [|reps| - 1], Failures(reps, slices, call))
  {
    var last := |reps| - 1;
    forall i | 0 <= i < |ks| ensures ks[i] < last { assert ks[i] in ks; }
    forall k: nat ensures k in ks + [last] <==> k < |reps| && Undelivered(reps, slices, call, k) {
      assert k in ks <==> k < last && Undelivered(reps[..last], slices[..last], call, k);
    }
  }

  lemma FailuresStay(reps: seq<BoundReporter>, slices: seq<seq<Result>>, call: Call, ks: seq<nat>)
    requires 0 < |reps| == |slices| && !Undelivered(reps, slices, call, |reps| - 1)
    requires var last := |reps| - 1;
      ListsUndelivered(reps[..last], slices[..last], call, ks, Failures(reps[..last], slices[..last], call))
    ensures ListsUndelivered(reps, slices, call, ks, Failures(reps, slices, call))
  {
    var last := |reps| - 1;
    forall k: nat ensures k in ks <==> k < |reps| && Undelivered(reps, slices, call, k) {
      assert k in ks <==> k < last && Undelivered(reps[..last], slices[..last], call, k);
    }
  }

  /** A report complains about every delivery that did not get through whole, in the order of the
      reporters, and last, whatever else failed, about news it could not save. */
  lemma ComplaintsExplained(h: History, i: nat, saves: bool) returns (ks: seq<nat>)
    requires h.Valid() && i < |h.calls|
    ensures var errs := Errors(h.At(i), h.reporters, h.calls[i], saves);
      var slices := Handed(h.At(i), h.reporters, h.calls[i]);
      var lost := !saves && ((exists c :: StatusMoved(h, i, c)) || SomethingLanded(h, i));
      && |ks| <= |errs| && ListsUndelivered(h.reporters, slices, h.calls[i], ks, errs[..|ks|])
      && errs[|ks|..] == if lost then [PersistFailed] else []
  {
    hide Step, Handed, Dirty, StatusMoved, SomethingLanded, ListsUndelivered;
    var slices := Handed(h.At(i), h.reporters, h.calls[i]);
    WritesWhenNews(h, i);
    ks := FailuresListed(h.reporters, slices, h.calls[i]);
    var failures, errs := Failures(h.reporters, slices, h.calls[i]), Errors(h.At(i), h.reporters, h.calls[i], saves);
    assert |ks| == |failures| by { FailuresCounted(h.reporters, slices, h.calls[i], ks, failures); }
    assert errs[..|ks|] == failures;
  }

  lemma FailuresCounted(reps: seq<BoundReporter>, slices: seq<seq<Result>>, call: Call, ks: seq<nat>, errs: seq<ReportError>)
    requires |reps| == |slices| && ListsUndelivered(reps, slices, call, ks, errs)
    ensures |ks| == |errs|
  {
  }

  // A report without complaints delivered everything it handed out, and kept what it wrote.
  lemma NoErrorsMeansDelivered(entries: Entries, reps: seq<BoundReporter>, call: Call, saves: bool)
    ensures var handed := Handed(entries, reps, call);
      (Errors(entries, reps, call, saves) == [])
        == ((Dirty(entries, reps, call) ==> saves) && forall k :: 0 <= k < |reps| ==> !Undelivered(reps, handed, call, k))
  {
    hide Handed, Dirty, Undelivered;
    var handed := Handed(entries, reps, call);
    var ks := FailuresListed(reps, handed, call);
    if |ks| > 0 { assert ks[0] in ks; }
  }
}
