/** The one reporter that delivers result by result (internal/report/linear.go). */
module Linear {
  import opened Check
  import opened Selection
  import opened Routing

  // create: whether the tracker accepts the issue for a result.
  method Report(results: seq<Result>, create: Result -> bool) returns (outcome: Outcome, filed: seq<Result>)
    ensures outcome == LinearOutcome(results, create)
    ensures outcome.Delivered? <==> forall r :: r in results ==> create(r)
    ensures !outcome.Delivered? ==>
      outcome.Partial? && forall c :: c in outcome.failed <==> exists r :: r in results && r.check == c && !create(r)
    ensures filed == Keep(results, create)
  {
    var failed: set<string> := {};
    var errs := 0;
    filed := [];
    for i := 0 to |results|
      invariant failed == set r | r in results[..i] && !create(r) :: r.check
      invariant errs > 0 <==> failed != {}
      invariant filed == Keep(results[..i], create)
    {
      assert results[..i + 1] == results[..i] + [results[i]];
      KeepLast(results[..i], results[i], create);
      if create(results[i]) {
        filed := filed + [results[i]];
      } else {
        errs := errs + 1;
        failed := failed + {results[i].check};
      }
    }
    assert results[..|results|] == results;
    assert forall r :: r in results && !create(r) ==> r.check in failed;
    outcome := if errs > 0 then Partial(failed) else Delivered;
  }

  function LinearOutcome(results: seq<Result>, create: Result -> bool): Outcome {
    var failed := set r | r in results && !create(r) :: r.check;
    if failed == {} then Delivered else Partial(failed)
  }

  // With one result per check, a check lands exactly when its own issue was created.
  lemma LandsIffCreated(results: seq<Result>, create: Result -> bool, r: Result)
    requires Distinct(results) && r in results
    ensures Lands(LinearOutcome(results, create), r.check) <==> create(r)
  {
    var failed := set s | s in results && !create(s) :: s.check;
    if r.check in failed {
      var s :| s in results && !create(s) && s.check == r.check;
      DistinctUnique(results, r, s);
    }
  }
}
