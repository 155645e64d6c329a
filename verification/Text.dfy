/** Strings as the Go sources use them: trimming, lower-casing and byte order, over ASCII. */
module Text {

  datatype Option<+T> = None | Some(value: T)

  predicate IsSpace(c: char) {
    c == ' ' || c == '\t' || c == '\n' || c == '\r' || c as int == 11 || c as int == 12
  }

  function TrimLeft(s: string): string {
    if s != [] && IsSpace(s[0]) then TrimLeft(s[1..]) else s
  }

  function TrimRight(s: string): string {
    if s != [] && IsSpace(s[|s| - 1]) then TrimRight(s[..|s| - 1]) else s
  }

  function TrimSpace(s: string): string {
    TrimRight(TrimLeft(s))
  }

  // The six ASCII space characters, and no others.
  predicate SpaceCode(c: char) {
    c as int in {9, 10, 11, 12, 13, 32}
  }

  predicate AllSpace(s: string) {
    forall i :: 0 <= i < |s| ==> SpaceCode(s[i])
  }

  predicate BareEnds(s: string) {
    s != "" ==> !SpaceCode(s[0]) && !SpaceCode(s[|s| - 1])
  }

  // s is `middle` with nothing but space around it, and the middle has no space at its ends.
  predicate TrimsTo(s: string, middle: string) {
    && BareEnds(middle)
    && exists i :: 0 <= i <= |s| - |middle| && CutAt(s, middle, i)
  }

  predicate CutAt(s: string, middle: string, i: nat)
    requires i + |middle| <= |s|
  {
    s[i..i + |middle|] == middle && AllSpace(s[..i]) && AllSpace(s[i + |middle|..])
  }

  lemma {:induction false} TrimLeftCuts(s: string) returns (i: nat)
    ensures i <= |s| && TrimLeft(s) == s[i..] && AllSpace(s[..i])
    ensures TrimLeft(s) != "" ==> !SpaceCode(TrimLeft(s)[0])
  {
    if s != [] && IsSpace(s[0]) {
      i := TrimLeftCuts(s[1..]);
      assert s[..i + 1] == [s[0]] + s[1..][..i];
      i := i + 1;
    } else {
      i := 0;
    }
  }

  lemma {:induction false} TrimRightCuts(s: string)
    ensures TrimRight(s) <= s && AllSpace(s[|TrimRight(s)|..])
    ensures TrimRight(s) != "" ==> !SpaceCode(TrimRight(s)[|TrimRight(s)| - 1])
    decreases |s|
  {
    var last := |s| - 1;
    if s != [] && IsSpace(s[last]) {
      TrimRightCuts(s[..last]);
      assert s[|TrimRight(s)|..] == s[..last][|TrimRight(s)|..] + [s[last]];
    }
  }

  lemma TrimSpaceTrims(s: string)
    ensures TrimsTo(s, TrimSpace(s))
  {
    hide SpaceCode;
    var i := TrimLeftCuts(s);
    var left, middle := s[i..], TrimSpace(s);
    TrimRightCuts(left);
    assert s[i..i + |middle|] == left[..|middle|] && s[i + |middle|..] == left[|middle|..];
    assert CutAt(s, middle, i);
  }

  /** There is only one such middle, so trimming can yield nothing else. */
  lemma TrimsToUnique(s: string, a: string, b: string)
    requires TrimsTo(s, a) && TrimsTo(s, b)
    ensures a == b
  {
    hide SpaceCode;
    var i :| 0 <= i <= |s| - |a| && CutAt(s, a, i);
    var k :| 0 <= k <= |s| - |b| && CutAt(s, b, k);
    EndsMeet(s, a, i, b, k);
    EndsMeet(s, b, k, a, i);
  }

  // A middle with no space at its ends lies inside any other.
  lemma EndsMeet(s: string, a: string, i: nat, b: string, k: nat)
    requires i + |a| <= |s| && k + |b| <= |s| && CutAt(s, a, i) && CutAt(s, b, k)
    requires BareEnds(a)
    ensures a != "" ==> k <= i && i + |a| <= k + |b|
  {
    hide SpaceCode;
    if a != "" {
      var last := i + |a| - 1;
      assert s[i] == a[0] && s[last] == a[|a| - 1];
      forall m: nat | m < k ensures SpaceCode(s[m]) { assert s[m] == s[..k][m]; }
      forall m: nat | k + |b| <= m < |s| ensures SpaceCode(s[m]) { assert s[m] == s[k + |b|..][m - k - |b|]; }
    }
  }

  // Lower-casing shifts the 26 capitals from A to Z onto a to z and leaves every other character alone.
  lemma LowersCapitals(c: char)
    ensures 65 <= c as int <= 90 ==> LowerChar(c) as int == c as int + 32
    ensures !(65 <= c as int <= 90) ==> LowerChar(c) == c
    ensures LowerChar('A') == 'a' && LowerChar('Z') == 'z'
  {
  }

  function LowerChar(c: char): char {
    if 'A' <= c <= 'Z' then (c as int + 32) as char else c
  }

  function ToLower(s: string): (r: string)
    ensures |r| == |s|
    ensures forall i :: 0 <= i < |s| ==> r[i] == LowerChar(s[i])
  {
    seq(|s|, i requires 0 <= i < |s| => LowerChar(s[i]))
  }

  // The strict order of Go's `<` on strings.
  predicate Below(a: string, b: string) {
    if b == [] then false
    else if a == [] then true
    else a[0] < b[0] || (a[0] == b[0] && Below(a[1..], b[1..]))
  }

  /** Below is the byte-wise dictionary order: a proper prefix comes first, and otherwise the first
      difference decides. */
  lemma {:induction false} BelowIsDictionary(a: string, b: string)
    ensures Below(a, b) <==> a < b || DiffersFirstAt(a, b)
  {
    if a != [] && b != [] {
      BelowIsDictionary(a[1..], b[1..]);
      if a[0] == b[0] {
        assert a < b <==> a[1..] < b[1..];
        DiffersLater(a, b);
      } else if a[0] < b[0] {
        assert a[..0] == b[..0];
      }
    }
  }

  predicate DiffersFirstAt(a: string, b: string) {
    exists i :: 0 <= i < |a| && i < |b| && a[..i] == b[..i] && a[i] < b[i]
  }

  lemma DiffersLater(a: string, b: string)
    requires a != [] && b != [] && a[0] == b[0]
    ensures DiffersFirstAt(a, b) <==> DiffersFirstAt(a[1..], b[1..])
  {
    if i :| 0 <= i < |a| && i < |b| && a[..i] == b[..i] && a[i] < b[i] {
      assert i > 0 && a[1..][..i - 1] == a[..i][1..] && b[1..][..i - 1] == b[..i][1..];
      assert a[1..][i - 1] < b[1..][i - 1];
    }
    if i :| 0 <= i < |a[1..]| && i < |b[1..]| && a[1..][..i] == b[1..][..i] && a[1..][i] < b[1..][i] {
      assert a[..i + 1] == [a[0]] + a[1..][..i] && b[..i + 1] == [b[0]] + b[1..][..i];
      assert a[i + 1] < b[i + 1];
    }
  }

  lemma {:induction false} BelowIrreflexive(a: string)
    ensures !Below(a, a)
  {
    if a != [] { BelowIrreflexive(a[1..]); }
  }

  lemma {:induction false} BelowTransitive(a: string, b: string, c: string)
    requires Below(a, b) && Below(b, c)
    ensures Below(a, c)
  {
    if a != [] && a[0] == b[0] && b[0] == c[0] { BelowTransitive(a[1..], b[1..], c[1..]); }
  }

  lemma {:induction false} BelowTotal(a: string, b: string)
    ensures a == b || Below(a, b) || Below(b, a)
  {
    if a != [] && b != [] && a[0] == b[0] {
      BelowTotal(a[1..], b[1..]);
      if a[1..] == b[1..] { assert a == [a[0]] + a[1..] == b; }
    }
  }

  // --- Decimal printing ---------------------------------------------------------------------

  const DIGITS: string := "0123456789"

  function Decimal(n: nat): string {
    if n < 10 then [DIGITS[n]] else Decimal(n / 10) + [DIGITS[n % 10]]
  }

  // Reading digits from the left.
  function Value(digits: string): int {
    if digits == [] then 0
    else 10 * Value(digits[..|digits| - 1]) + (digits[|digits| - 1] as int - '0' as int)
  }

  lemma {:induction false} DecimalValue(n: nat)
    ensures Value(Decimal(n)) == n
    ensures forall c :: c in Decimal(n) ==> '0' <= c <= '9'
    ensures n > 0 ==> Decimal(n)[0] != '0'
  {
    DigitValues(n % 10);
    if n < 10 {
      assert Decimal(n)[..0] == [];
    } else {
      DecimalValue(n / 10);
      assert Decimal(n)[..|Decimal(n)| - 1] == Decimal(n / 10);
    }
  }

  lemma DigitValues(d: nat)
    requires d < 10
    ensures DIGITS[d] as int - '0' as int == d
  {
  }

  lemma DecimalInjective(a: nat, b: nat)
    requires Decimal(a) == Decimal(b)
    ensures a == b
  {
    DecimalValue(a);
    DecimalValue(b);
  }
}
