/** Printing a byte count (internal/check/helpers.go): 64-bit unsigned scaling, then one decimal of a
    double-precision quotient. */
module HumanBytes {
  import opened Text

  newtype uint64 = x: int | 0 <= x < 0x1_0000_0000_0000_0000

  const UNIT: uint64 := 1024
  const UNITS: string := "KMGTPE"

  function Power(base: nat, e: nat): (p: nat)
    ensures base > 0 ==> p > 0
  {
    if e == 0 then 1 else base * Power(base, e - 1)
  }

  // n is the quotient of b by d.
  predicate Quotient(b: nat, d: nat, n: nat) {
    n * d <= b < (n + 1) * d
  }

  lemma Grows(a: nat, b: nat, d: nat)
    requires a <= b
    ensures a * d <= b * d
  {
  }

  // Dividing the quotient once more is dividing by the next power.
  lemma DivideAgain(b: nat, d: nat, n: nat)
    requires Quotient(b, d, n)
    ensures Quotient(b, d * 1024, n / 1024)
    ensures n >= 1024 ==> d * 1024 <= b
  {
    var m := n / 1024;
    assert m * 1024 <= n && n + 1 <= (m + 1) * 1024;
    Grows(m * 1024, n, d);
    Grows(n + 1, (m + 1) * 1024, d);
    assert (m * 1024) * d == m * (d * 1024) && ((m + 1) * 1024) * d == (m + 1) * (d * 1024);
    if n >= 1024 { Grows(1024, n, d); }
  }

  lemma SixUnitsSuffice(exp: nat)
    requires Power(1024, exp + 1) < 0x1_0000_0000_0000_0000
    ensures exp <= 5
  {
    if exp >= 6 {
      SeventhPower();
      PowersGrow(7, exp + 1);
    }
  }

  lemma SeventhPower()
    ensures Power(1024, 7) >= 0x1_0000_0000_0000_0000
  {
    assert Power(1024, 3) == 1024 * 1024 * 1024;
    assert Power(1024, 5) == 1024 * 1024 * Power(1024, 3);
  }

  lemma {:induction false} PowersGrow(a: nat, b: nat)
    requires a <= b
    ensures Power(1024, a) <= Power(1024, b)
  {
    if a < b { PowersGrow(a, b - 1); }
  }

  /** For every 64-bit size of at least one unit the loop ends with the power of 1024 that leaves a
      mantissa in [1, 1024), without overflow and with a unit letter to print. */
  method Scale(b: uint64) returns (div: uint64, exp: nat)
    requires b >= UNIT
    ensures div as int == Power(1024, exp + 1)
    ensures div as int <= b as int < 1024 * (div as int)
    ensures exp < |UNITS|
  {
    div, exp := UNIT, 0;
    var n := b / UNIT;
    while n >= UNIT
      invariant div as int == Power(1024, exp + 1)
      invariant Quotient(b as int, div as int, n as int) && n >= 1
      decreases n
    {
      DivideAgain(b as int, div as int, n as int);
      div := div * UNIT;
      exp := exp + 1;
      n := n / UNIT;
    }
    Grows(1, n as int, div as int);
    Grows(n as int + 1, 1024, div as int);
    SixUnitsSuffice(exp);
  }

  // The size is from one to less than 1024 of this unit.
  predicate Fits(b: nat, exp: nat) {
    Power(1024, exp + 1) <= b < 1024 * Power(1024, exp + 1)
  }

  // The unit is the only one that fits.
  lemma UnitUnique(b: nat, e1: nat, e2: nat)
    requires Fits(b, e1) && Fits(b, e2)
    ensures e1 == e2
  {
    if e1 < e2 { PowersGrow(e1 + 2, e2 + 1); }
    if e2 < e1 { PowersGrow(e2 + 2, e1 + 1); }
  }

  // --- The printed number -----------------------------------------------------------------------

  const MANTISSA: nat := 0x20_0000_0000_0000  // 2^53: below it every integer is a double

  // n / d to the nearest integer, ties to even.
  function Nearest(n: nat, d: nat): nat
    requires d > 0
  {
    var q, rest := n / d, n % d;
    if 2 * rest < d || (2 * rest == d && q % 2 == 0) then q else q + 1
  }

  // The distance between neighbouring doubles at b.
  function Ulp(b: nat): (u: nat)
    ensures u > 0
  {
    if b < MANTISSA then 1 else 2 * Ulp(b / 2)
  }

  // The double that float64(b) yields.
  function ToDouble(b: nat): nat {
    if b < MANTISSA then b else Nearest(b, Ulp(b)) * Ulp(b)
  }

  /** ToDouble(b) is a double next to b: at most 2^53 times a power of two, with b at least 2^52 of
      them, and nothing representable is nearer. */
  lemma {:induction false} DoubleRepresents(b: nat) returns (m: nat, e: nat)
    ensures Ulp(b) == Power(2, e) && ToDouble(b) == m * Power(2, e) && m <= MANTISSA
    ensures b >= MANTISSA ==> 2 * b >= MANTISSA * Power(2, e)
    ensures Within(2 * b, 2 * ToDouble(b), Ulp(b))
  {
    e := UlpIsPower(b);
    if b < MANTISSA {
      m := b;
    } else {
      m := Nearest(b, Ulp(b));
      NearestWithin(b, Ulp(b));
      UlpIsSmall(b);
      if m > MANTISSA { Grows(MANTISSA + 1, m, Ulp(b)); }
    }
  }

  lemma {:induction false} UlpIsPower(b: nat) returns (e: nat)
    ensures Ulp(b) == Power(2, e) && b < MANTISSA * Power(2, e)
  {
    if b < MANTISSA {
      e := 0;
    } else {
      e := UlpIsPower(b / 2);
      assert b < 2 * (MANTISSA * Power(2, e));
      e := e + 1;
    }
  }

  // Ties go to the even neighbour.
  lemma TiesToEven(n: nat, d: nat)
    requires d > 0 && 2 * (n % d) == d
    ensures Nearest(n, d) % 2 == 0
  {
  }

  // Dividing a double by a power of two is exact, so one decimal is one rounding of tenths.
  function Tenths(b: nat, div: nat): nat
    requires div > 0
  {
    Nearest(10 * ToDouble(b), div)
  }

  predicate Within(a: int, b: int, bound: int) {
    -bound <= a - b <= bound
  }

  lemma NearestWithin(n: nat, d: nat)
    requires d > 0
    ensures Within(2 * n, 2 * (Nearest(n, d) * d), d)
  {
    var q := n / d;
    assert n == q * d + n % d && (q + 1) * d == q * d + d;
  }

  lemma {:induction false} UlpIsSmall(b: nat)
    requires b >= MANTISSA
    ensures 2 * Ulp(b) * 0x8_0000_0000_0000 <= b
  {
    if b / 2 >= MANTISSA { UlpIsSmall(b / 2); }
  }

  /** Exactly the nearest tenth wherever the size is a double, and never off by a tenth; so what is
      printed lies between 1.0 and 1024.0. */
  lemma TenthsAccurate(b: nat, div: nat)
    requires 0 < div <= b < 1024 * div
    ensures b < MANTISSA ==> Within(2 * 10 * b, 2 * (Tenths(b, div) * div), div)
    ensures Within(10 * b, Tenths(b, div) * div, div - 1)
    ensures 10 <= Tenths(b, div) <= 10240
  {
    var f, t := ToDouble(b), Tenths(b, div);
    NearestWithin(10 * f, div);
    if b >= MANTISSA {
      NearestWithin(b, Ulp(b));
      UlpIsSmall(b);
    }
    if t < 10 { Grows(t, 9, div); }
    if t > 10240 { Grows(10241, t, div); }
  }

  function Printed(b: nat, exp: nat): string
    requires exp < |UNITS|
  {
    var div := Power(1024, exp + 1);
    Decimal(Tenths(b, div) / 10) + "." + Decimal(Tenths(b, div) % 10) + [UNITS[exp]] + "iB"
  }

  predicate PrintsInItsUnit(b: nat, text: string) {
    exists exp: nat | exp < |UNITS| :: Fits(b, exp) && text == Printed(b, exp)
  }

  method Print(b: uint64) returns (text: string)
    ensures b < UNIT ==> text == Decimal(b as nat) + "B"
    ensures b >= UNIT ==> PrintsInItsUnit(b as nat, text)
  {
    if b < UNIT { return Decimal(b as nat) + "B"; }
    var div, exp := Scale(b);
    assert Fits(b as nat, exp);
    text := Printed(b as nat, exp);
  }

  // Exactly the sizes less than a twentieth of a unit below the next one print as 1024.0, not as 1.0
  // of that next unit.
  lemma RoundsUpToTheNextUnit(b: nat, div: nat)
    requires 0 < div <= b < 1024 * div
    ensures Tenths(b, div) == 10240 <==> 20 * ToDouble(b) >= 20479 * div
    ensures b < MANTISSA ==> (Tenths(b, div) == 10240 <==> 20 * b >= 20479 * div)
  {
    hide ToDouble, Nearest;
    TenthsAccurate(b, div);
    NearestAbove(10 * ToDouble(b), div, 10239);
    DoubleBelow(b);
  }

  // Halfway between an odd m and its successor, the successor is nearest.
  lemma NearestAbove(n: nat, d: nat, m: nat)
    requires d > 0 && m % 2 == 1
    ensures Nearest(n, d) > m <==> 2 * n >= (2 * m + 1) * d
  {
    var q, rest := n / d, n % d;
    assert n == q * d + rest;
    assert (2 * m + 1) * d == 2 * (m * d) + d && (q + 1) * d == q * d + d && (m + 1) * d == m * d + d;
    if q < m {
      Grows(q + 1, m, d);
    } else if q > m {
      Grows(m + 1, q, d);
    }
  }

  lemma DoubleBelow(b: nat)
    ensures b < MANTISSA ==> ToDouble(b) == b
  {
  }

  // What is printed reads as the number of tenths, followed by the unit.
  lemma PrintedReads(b: nat, exp: nat)
    requires exp < |UNITS|
    ensures var text := Printed(b, exp);
      var dot := |text| - 5;
      && dot > 0 && text[dot] == '.'
      && 10 * Value(text[..dot]) + Value([text[dot + 1]]) == Tenths(b, Power(1024, exp + 1))
      && text[dot + 2..] == ["KiB", "MiB", "GiB", "TiB", "PiB", "EiB"][exp]
  {
    hide Tenths, Power;
    var text, t := Printed(b, exp), Tenths(b, Power(1024, exp + 1));
    DecimalValue(t / 10);
    DecimalValue(t % 10);
    var whole := Decimal(t / 10);
    assert text[..|text| - 5] == whole && [text[|text| - 4]] == Decimal(t % 10);
    assert text[|text| - 3..] == [UNITS[exp]] + "iB";
  }
}
