/** Check results and severities (internal/check/check.go). */
module Check {
  import opened Text

  datatype Status = OK | Warn | Crit | Unknown

  function StatusName(s: Status): string {
    match s
    case OK => "ok"
    case Warn => "warn"
    case Crit => "crit"
    case Unknown => "unknown"
  }

  function Severity(s: Status): nat {
    match s
    case OK => 0
    case Warn => 1
    case Crit => 2
    case Unknown => 3
  }

  predicate IsFailing(s: Status) {
    s != OK
  }

  function ParseStatus(text: string): Option<Status> {
    var s := ToLower(TrimSpace(text));
    if s == "ok" then Some(OK)
    else if s == "warn" || s == "warning" then Some(Warn)
    else if s == "crit" || s == "critical" then Some(Crit)
    else if s == "unknown" then Some(Unknown)
    else None
  }

  // The words a configuration may use for a status, its name first.
  function Words(s: Status): seq<string> {
    match s
    case OK => ["ok"]
    case Warn => ["warn", "warning"]
    case Crit => ["crit", "critical"]
    case Unknown => ["unknown"]
  }

  /** A text is read as a status exactly if it is one of that status's words, in any letter case and
      with any space around it. */
  lemma ParsesItsWords(text: string, s: Status)
    ensures ParseStatus(text) == Some(s) <==> ToLower(TrimSpace(text)) in Words(s)
  {
  }

  lemma NamesAreWords(s: Status)
    ensures StatusName(s) == Words(s)[0] && ParseStatus(StatusName(s)) == Some(s)
  {
    assert TrimSpace(StatusName(s)) == StatusName(s) && ToLower(StatusName(s)) == StatusName(s);
  }

  // From the mildest to the most severe.
  const MILDEST_FIRST: seq<Status> := [OK, Warn, Crit, Unknown]

  lemma SeverityIsRank(s: Status)
    ensures MILDEST_FIRST[Severity(s)] == s
  {
  }

  // `summary` stands for everything a reporter shows and the alert engine never looks at.
  datatype Result = Result(check: string, status: Status, summary: string, tags: seq<string>)

  // No two results of one report are about the same check.
  predicate Distinct(results: seq<Result>) {
    forall i, j :: 0 <= i < j < |results| ==> results[i].check != results[j].check
  }

  lemma StatusNamesDiffer(s: Status, t: Status)
    ensures StatusName(s) == StatusName(t) <==> s == t
  {
    assert |StatusName(OK)| == 2 && |StatusName(Unknown)| == 7;
    assert StatusName(Warn)[0] == 'w' && StatusName(Crit)[0] == 'c';
  }

  lemma DistinctUnique(results: seq<Result>, r: Result, s: Result)
    requires Distinct(results) && r in results && s in results && r.check == s.check
    ensures r == s
  {
    var i :| 0 <= i < |results| && results[i] == r;
    var j :| 0 <= j < |results| && results[j] == s;
    assert i == j;
  }
}
