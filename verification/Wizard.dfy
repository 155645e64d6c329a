/** Naming entries in the init wizard (internal/cli/init.go). */
module Wizard {
  import opened Text

  // The j-th default: the type itself, then type-2, type-3, and so on.
  function Candidate(kind: string, j: nat): string {
    if j == 0 then kind else kind + "-" + Decimal(j + 1)
  }

  lemma CandidatesDiffer(kind: string, i: nat, j: nat)
    requires Candidate(kind, i) == Candidate(kind, j)
    ensures i == j
  {
    if i > 0 && j > 0 {
      assert Candidate(kind, i)[|kind| + 1..] == Decimal(i + 1);
      assert Candidate(kind, j)[|kind| + 1..] == Decimal(j + 1);
      DecimalInjective(i + 1, j + 1);
    }
  }

  function Candidates(kind: string, n: nat): set<string> {
    if n == 0 then {} else Candidates(kind, n - 1) + {Candidate(kind, n - 1)}
  }

  lemma {:induction false} CandidatesMembers(kind: string, n: nat, c: string)
    ensures c in Candidates(kind, n) <==> exists j: nat :: j < n && c == Candidate(kind, j)
  {
    hide Candidate;
    if n > 0 { CandidatesMembers(kind, n - 1, c); }
  }

  lemma {:induction false} CandidatesCount(kind: string, n: nat)
    ensures |Candidates(kind, n)| == n
  {
    hide Candidate;
    if n > 0 {
      CandidatesCount(kind, n - 1);
      CandidatesMembers(kind, n - 1, Candidate(kind, n - 1));
      if j: nat :| j < n - 1 && Candidate(kind, n - 1) == Candidate(kind, j) {
        CandidatesDiffer(kind, n - 1, j);
      }
    }
  }

  // Every one of these answers names an entry that exists already.
  predicate AllTaken(answers: seq<string>, used: set<string>) {
    forall a :: a in answers ==> TrimSpace(a) != "" && TrimSpace(a) in used
  }

  // The first of kind, kind-2, kind-3, ... that is not taken, found within |used| steps.
  ghost predicate FirstFree(kind: string, used: set<string>, name: string) {
    && name !in used
    && exists n: nat :: n <= |used| && name == Candidate(kind, n) && AllUsed(kind, n, used)
  }

  // That is the type itself if it is free, and otherwise the smallest number from 2 on that gives a
  // free name.
  lemma FirstFreeSpelled(kind: string, used: set<string>, name: string)
    requires FirstFree(kind, used, name)
    ensures (name == kind && kind !in used) || exists n: nat :: NumberedFree(kind, used, name, n)
  {
    var k: nat :| k <= |used| && name == Candidate(kind, k) && AllUsed(kind, k, used);
    if k > 0 {
      forall m: nat | 2 <= m < k + 1 ensures kind + "-" + Decimal(m) in used { assert Candidate(kind, m - 1) in used; }
      assert Candidate(kind, 0) in used;
      assert NumberedFree(kind, used, name, k + 1);
    }
  }

  // kind-n for some n from 2 on, when kind itself and every smaller number are taken.
  ghost predicate NumberedFree(kind: string, used: set<string>, name: string, n: nat) {
    && n >= 2 && name == kind + "-" + Decimal(n) && name !in used && kind in used
    && forall m: nat :: 2 <= m < n ==> kind + "-" + Decimal(m) in used
  }

  ghost predicate AllUsed(kind: string, n: nat, used: set<string>) {
    forall j: nat :: j < n ==> Candidate(kind, j) in used
  }

  class Names {
    var used: set<string>

    constructor ()
      ensures used == {}
    {
      used := {};
    }

    // The loop for the default stops within |used| + 1 candidates: each rejected one is another
    // member of `used`.
    method Default(kind: string) returns (def: string)
      ensures FirstFree(kind, used, def)
      ensures (def == kind && kind !in used) || exists n: nat :: NumberedFree(kind, used, def, n)
    {
      def := kind;
      ghost var tried: nat := 0;
      var i := 2;
      while def in used
        invariant i == tried + 2 && def == Candidate(kind, tried)
        invariant tried <= |used| && Candidates(kind, tried) <= used
        decreases |used| - tried
      {
        CandidatesCount(kind, tried + 1);
        Fits(Candidates(kind, tried + 1), used);
        def := kind + "-" + Decimal(i);
        i := i + 1;
        tried := tried + 1;
      }
      forall j: nat | j < tried ensures Candidate(kind, j) in used {
        CandidatesMembers(kind, tried, Candidate(kind, j));
      }
      assert FirstFree(kind, used, def);
      FirstFreeSpelled(kind, used, def);
    }

    /** Asks until an unused name is given, a blank answer meaning the default; fails only when the
        answers run out. */
    method UniqueName(kind: string, answers: seq<string>) returns (name: Option<string>, rest: seq<string>)
      requires kind != ""
      modifies this
      ensures |rest| <= |answers| && rest == answers[|answers| - |rest|..]
      ensures name.None? ==> used == old(used) && rest == [] && AllTaken(answers, old(used))
      ensures name.Some? ==> |rest| < |answers| && AllTaken(answers[..|answers| - |rest| - 1], old(used))
      ensures name.Some? ==> name.value != "" && name.value !in old(used) && used == old(used) + {name.value}
      ensures name.Some? ==>
        var answer := TrimSpace(answers[|answers| - |rest| - 1]);
        if answer == "" then FirstFree(kind, old(used), name.value) else name.value == answer
    {
      var def := Default(kind);
      rest := answers;
      while rest != []
        invariant used == old(used)
        invariant |rest| <= |answers| && rest == answers[|answers| - |rest|..]
        invariant AllTaken(answers[..|answers| - |rest|], used)
        decreases |rest|
      {
        var s := TrimSpace(rest[0]);
        var answer := if s == "" then def else s;
        assert answers[..|answers| - |rest| + 1] == answers[..|answers| - |rest|] + [rest[0]];
        rest := rest[1..];
        if answer !in used {
          used := used + {answer};
          return Some(answer), rest;
        }
      }
      assert answers[..|answers|] == answers;
      name := None;
    }

    /** Over any sequence of calls the recorded names are nonempty, pairwise distinct, and exactly
        what the registry gained. */
    method NameAll(kinds: seq<string>, answers: seq<string>) returns (names: seq<string>)
      requires forall k :: k in kinds ==> k != ""
      modifies this
      ensures |names| <= |kinds|
      ensures forall i, j :: 0 <= i < j < |names| ==> names[i] != names[j]
      ensures forall n :: n in names ==> n != "" && n !in old(used)
      ensures forall n :: n in used <==> n in old(used) || n in names
    {
      names := [];
      var rest := answers;
      for k := 0 to |kinds|
        invariant |names| <= k
        invariant forall i, j :: 0 <= i < j < |names| ==> names[i] != names[j]
        invariant forall n :: n in names ==> n != "" && n !in old(used)
        invariant forall n :: n in used <==> n in old(used) || n in names
      {
        var name;
        assert kinds[k] in kinds;
        name, rest := UniqueName(kinds[k], rest);
        if name.None? { return; }
        names := names + [name.value];
      }
    }
  }

  lemma Fits(a: set<string>, b: set<string>)
    requires a <= b
    ensures |a| <= |b|
  {
    assert b == a + (b - a);
    assert |b| == |a| + |b - a|;
  }
}
