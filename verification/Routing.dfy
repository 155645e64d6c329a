/** Which results a reporter receives, and how a delivery can go (internal/report/report.go). */
module Routing {
  import opened Check
  import opened Selection

  datatype Route = Route(
    minSeverity: Status, checks: seq<string>, tags: seq<string>,
    onlyFailing: bool, repeatAlerts: bool, dedupeWindow: int)

  // The route as its documentation describes it.
  predicate Accepts(route: Route, r: Result) {
    && (route.onlyFailing ==> IsFailing(r.status))
    && Severity(r.status) >= Severity(route.minSeverity)
    && (route.checks != [] ==> r.check in route.checks)
    && (route.tags != [] ==> exists t :: t in r.tags && t in route.tags)
  }

  // Statuses that a minimum severity leaves out.
  function Milder(min: Status): set<Status> {
    match min
    case OK => {}
    case Warn => {OK}
    case Crit => {OK, Warn}
    case Unknown => {OK, Warn, Crit}
  }

  /** What a route leaves out: successes if only failures are wanted, anything milder than its minimum,
      checks it does not name, and results without any of its tags. */
  predicate Dropped(route: Route, r: Result) {
    || (route.onlyFailing && r.status == OK)
    || r.status in Milder(route.minSeverity)
    || (|route.checks| > 0 && r.check !in route.checks)
    || (|route.tags| > 0 && forall t :: t in r.tags ==> t !in route.tags)
  }

  lemma AcceptedOrDropped(route: Route, r: Result)
    ensures Accepts(route, r) <==> !Dropped(route, r)
  {
  }

  function Accepting(route: Route): Result -> bool {
    r => Accepts(route, r)
  }

  method ToSet(items: seq<string>) returns (s: set<string>)
    ensures forall x :: x in s <==> x in items
  {
    s := {};
    for i := 0 to |items|
      invariant forall x :: x in s <==> x in items[..i]
    {
      s := s + {items[i]};
    }
  }

  method HasAnyTag(tags: seq<string>, wanted: set<string>) returns (found: bool)
    ensures found <==> exists t :: t in tags && t in wanted
  {
    for i := 0 to |tags|
      invariant forall t :: t in tags[..i] ==> t !in wanted
    {
      if tags[i] in wanted { return true; }
    }
    found := false;
  }

  method Filter(route: Route, results: seq<Result>) returns (out: seq<Result>)
    ensures out == Keep(results, Accepting(route))
    ensures forall r :: r in out <==> r in results && !Dropped(route, r)
  {
    var checkSet := ToSet(route.checks);
    var tagSet := ToSet(route.tags);
    assert route.checks != [] ==> route.checks[0] in checkSet;
    assert route.tags != [] ==> route.tags[0] in tagSet;
    out := [];
    for i := 0 to |results|
      invariant out + Keep(results[i..], Accepting(route)) == Keep(results, Accepting(route))
    {
      var r := results[i];
      assert results[i..][1..] == results[i + 1..];
      if route.onlyFailing && !IsFailing(r.status) { continue; }
      if Severity(r.status) < Severity(route.minSeverity) { continue; }
      if checkSet != {} && r.check !in checkSet { continue; }
      if tagSet != {} {
        var tagged := HasAnyTag(r.tags, tagSet);
        if !tagged { continue; }
      }
      out := out + [r];
    }
    forall r ensures r in out <==> r in results && !Dropped(route, r) {
      KeepMember(results, Accepting(route), r);
      AcceptedOrDropped(route, r);
    }
  }

  /** How one delivery ended: no error, an error that fails the whole slice, or a PartialError
      naming the checks that did not get through. */
  datatype Outcome = Delivered | Failed | Partial(failed: set<string>)

  predicate Lands(o: Outcome, check: string) {
    match o
    case Delivered => true
    case Failed => false
    case Partial(failed) => check !in failed
  }
}
