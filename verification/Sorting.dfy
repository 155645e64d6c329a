/** Results sorted by check name, as sort.Slice leaves them. */
module Sorting {
  import opened Text
  import opened Check

  predicate ByName(rs: seq<Result>) {
    forall i, j :: 0 <= i < j < |rs| ==> Below(rs[i].check, rs[j].check)
  }

  function Insert(r: Result, rs: seq<Result>): seq<Result> {
    if rs == [] then [r]
    else if Below(rs[0].check, r.check) then [rs[0]] + Insert(r, rs[1..])
    else [r] + rs
  }

  function SortByCheck(rs: seq<Result>): seq<Result> {
    if rs == [] then [] else Insert(rs[0], SortByCheck(rs[1..]))
  }

  lemma {:induction false} InsertMembers(r: Result, rs: seq<Result>)
    ensures multiset(Insert(r, rs)) == multiset(rs) + multiset{r}
  {
    if rs != [] && Below(rs[0].check, r.check) {
      InsertMembers(r, rs[1..]);
      assert rs == [rs[0]] + rs[1..];
    }
  }

  lemma {:induction false} InsertOrdered(r: Result, rs: seq<Result>)
    requires ByName(rs) && forall x :: x in rs ==> x.check != r.check
    ensures ByName(Insert(r, rs))
  {
    hide Below;
    if rs != [] {
      if Below(rs[0].check, r.check) {
        InsertOrdered(r, rs[1..]);
        InsertMembers(r, rs[1..]);
        forall x | x in Insert(r, rs[1..]) ensures Below(rs[0].check, x.check) {
          assert x in multiset(Insert(r, rs[1..]));
        }
      } else {
        BelowTotal(rs[0].check, r.check);
        forall i | 0 <= i < |rs| ensures Below(r.check, rs[i].check) {
          if i > 0 { BelowTransitive(r.check, rs[0].check, rs[i].check); }
        }
      }
    }
  }

  // Sorting results about distinct checks gives them in strict name order, each exactly once.
  lemma {:induction false} SortSorts(rs: seq<Result>)
    requires Distinct(rs)
    ensures ByName(SortByCheck(rs)) && multiset(SortByCheck(rs)) == multiset(rs)
  {
    hide Below, Insert;
    if rs != [] {
      SortSorts(rs[1..]);
      InsertMembers(rs[0], SortByCheck(rs[1..]));
      forall x | x in SortByCheck(rs[1..]) ensures x.check != rs[0].check {
        assert x in multiset(rs[1..]);
      }
      InsertOrdered(rs[0], SortByCheck(rs[1..]));
      assert rs == [rs[0]] + rs[1..];
    }
  }

  // Each name is a proper prefix of every later one, or smaller where they first differ.
  predicate DictionaryOrder(rs: seq<Result>) {
    forall i, j :: 0 <= i < j < |rs| ==> rs[i].check < rs[j].check || DiffersFirstAt(rs[i].check, rs[j].check)
  }

  lemma OrderedByDictionary(rs: seq<Result>)
    ensures ByName(rs) <==> DictionaryOrder(rs)
  {
    hide Below, DiffersFirstAt;
    forall i, j | 0 <= i < j < |rs|
      ensures Below(rs[i].check, rs[j].check) <==> rs[i].check < rs[j].check || DiffersFirstAt(rs[i].check, rs[j].check)
    {
      BelowIsDictionary(rs[i].check, rs[j].check);
    }
  }

  lemma OrderedDistinct(rs: seq<Result>)
    requires ByName(rs)
    ensures Distinct(rs)
  {
    forall i, j | 0 <= i < j < |rs| ensures rs[i].check != rs[j].check { BelowIrreflexive(rs[i].check); }
  }

  lemma FirstIsLeast(a: seq<Result>, b: seq<Result>)
    requires ByName(a) && ByName(b) && a != [] && b != []
    requires forall r :: r in a <==> r in b
    ensures a[0] == b[0]
  {
    assert a[0] in a && b[0] in b;
    var i :| 0 <= i < |b| && b[i] == a[0];
    var j :| 0 <= j < |a| && a[j] == b[0];
    if i > 0 && j > 0 {
      BelowTransitive(b[0].check, a[0].check, b[0].check);
      BelowIrreflexive(b[0].check);
    }
  }

  /** A set of results has only one strictly ordered listing, so neither map order, goroutine order
      nor the sorting algorithm can show in the output. */
  lemma {:induction false} ListingUnique(a: seq<Result>, b: seq<Result>)
    requires ByName(a) && ByName(b)
    requires forall r :: r in a <==> r in b
    ensures a == b
  {
    assert (a != [] ==> a[0] in a) && (b != [] ==> b[0] in b);
    if a != [] {
      FirstIsLeast(a, b);
      forall r ensures r in a[1..] <==> r in b[1..] {
        RestMembers(a, r);
        RestMembers(b, r);
      }
      ListingUnique(a[1..], b[1..]);
    }
  }

  lemma RestMembers(a: seq<Result>, r: Result)
    requires ByName(a) && a != []
    ensures r in a[1..] <==> r in a && r != a[0]
  {
    BelowIrreflexive(a[0].check);
  }
}
