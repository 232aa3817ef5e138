/**
 * The rounding policy (`calculations/rounding.py`): ceilings, floors, and the division that is
 * carried at fifty significant digits before either of them is applied.
 */
module Rounding {

  const PRECISION_LIMIT: nat := 1_00000_00000_00000_00000_00000_00000_00000_00000_00000_00000

  function Pow10(e: nat): (p: nat)
    ensures p > 0
  {
    if e == 0 then 1 else 10 * Pow10(e - 1)
  }

  function FloorDiv(n: int, d: int): int
    requires d > 0
  {
    n / d
  }

  function CeilDiv(n: int, d: int): int
    requires d > 0
  {
    -((-n) / d)
  }

  /** `half_width_hz`: integer ceiling division by two. */
  function HalfWidth(bandwidth: int): int {
    CeilDiv(bandwidth, 2)
  }

  /** The least integer that is no smaller than the quotient. */
  lemma CeilDivIsLeast(n: int, d: int, b: int)
    requires d > 0
    ensures CeilDiv(n, d) <= b <==> n <= b * d
  {
    var q := (-n) / d;
    assert q * d <= -n < q * d + d;
    if -q <= b {
      assert b * d >= (-q) * d;
    } else {
      assert b * d <= (-q - 1) * d;
    }
  }

  /** The greatest integer that is no larger than the quotient. */
  lemma FloorDivIsGreatest(n: int, d: int, s: int)
    requires d > 0
    ensures s <= FloorDiv(n, d) <==> s * d <= n
  {
    var q := n / d;
    assert q * d <= n < q * d + d;
    if s <= q {
      assert s * d <= q * d;
    } else {
      assert s * d >= (q + 1) * d;
    }
  }

  // ------------------------------------------------------------------------------------------
  // Division in a context of fifty significant digits, rounding half to even
  // ------------------------------------------------------------------------------------------

  /** `coefficient / 10^places`, or `coefficient * 10^zeros` when the integer part overflows. */
  datatype Decimal =
    | Fraction(coefficient: nat, places: nat)
    | Large(coefficient: nat, zeros: nat)

  function FloorHz(x: Decimal): int {
    match x
    case Fraction(c, p) => FloorDiv(c, Pow10(p))
    case Large(c, z) => c * Pow10(z)
  }

  function HalfEven(n: nat, d: nat): (c: nat)
    requires d > 0
    ensures 2 * n - d <= 2 * (c * d) <= 2 * n + d
  {
    var q, r := n / d, n % d;
    assert q * d + r == n;
    assert (q + 1) * d == q * d + d;
    if 2 * r < d || (2 * r == d && q % 2 == 0) then q else q + 1
  }

  /** Half way between two, the even one is taken. */
  lemma TiesGoToEven(n: nat, d: nat)
    requires d > 0 && 2 * (n % d) == d
    ensures HalfEven(n, d) % 2 == 0
  {
  }

  /** How many decimal places fit beside the integer part of n/d. */
  function Places(n: nat, d: nat): nat
    requires 0 < d && n < d * PRECISION_LIMIT
    decreases d * PRECISION_LIMIT - n
  {
    if n == 0 || n * 10 >= d * PRECISION_LIMIT then 0 else 1 + Places(n * 10, d)
  }

  /** How many trailing integer digits of n/d have to be given up. */
  function Zeros(n: nat, d: nat): nat
    requires 0 < d
    decreases n - d
  {
    if n < d * PRECISION_LIMIT then 0 else 1 + Zeros(n, d * 10)
  }

  /** `inexact_quotient`. */
  function Quotient(n: nat, d: nat): Decimal
    requires d > 0
  {
    if n < d * PRECISION_LIMIT then
      var places := Places(n, d);
      Fraction(HalfEven(n * Pow10(places), d), places)
    else
      var zeros := Zeros(n, d);
      Large(HalfEven(n, d * Pow10(zeros)), zeros)
  }

  lemma {:induction false} PlacesAreMost(n: nat, d: nat)
    requires 0 < d && 0 < n && n < d * PRECISION_LIMIT
    ensures n * Pow10(Places(n, d)) < d * PRECISION_LIMIT <= n * Pow10(Places(n, d)) * 10
    decreases d * PRECISION_LIMIT - n
  {
    if n * 10 < d * PRECISION_LIMIT {
      PlacesAreMost(n * 10, d);
      TenTimes(n, Pow10(Places(n * 10, d)));
    }
  }

  lemma {:induction false} ZerosAreFewest(n: nat, d: nat)
    requires 0 < d
    ensures n < d * Pow10(Zeros(n, d)) * PRECISION_LIMIT
    ensures Zeros(n, d) > 0 ==> n * 10 >= d * Pow10(Zeros(n, d)) * PRECISION_LIMIT
    decreases n - d
  {
    if n >= d * PRECISION_LIMIT {
      ZerosAreFewest(n, d * 10);
      TenTimes(d, Pow10(Zeros(n, d * 10)));
    }
  }

  /** The quotient keeps fifty significant digits and no more, each time to the nearest. */
  lemma QuotientKeepsFiftyDigits(n: nat, d: nat)
    requires 0 < d && 0 < n
    ensures match Quotient(n, d)
            case Fraction(c, p) =>
              && n * Pow10(p) < d * PRECISION_LIMIT <= n * Pow10(p) * 10
              && 2 * (n * Pow10(p)) - d <= 2 * (c * d) <= 2 * (n * Pow10(p)) + d
            case Large(c, z) =>
              && n < d * Pow10(z) * PRECISION_LIMIT <= n * 10
              && 2 * n - d * Pow10(z) <= 2 * (c * (d * Pow10(z))) <= 2 * n + d * Pow10(z)
  {
    if n < d * PRECISION_LIMIT {
      PlacesAreMost(n, d);
    } else {
      ZerosAreFewest(n, d);
    }
  }

  lemma MulMonotone(a: int, b: int, c: int)
    requires a <= b && 0 <= c
    ensures a * c <= b * c
  {
  }

  lemma Rearranged(a: int, b: int, c: int)
    ensures (a * b) * c == (a * c) * b
  {
  }

  /** Rounding the digits beyond the fiftieth moves no quotient across an integer, provided the
      grid the digits stand on is finer than the denominator can tell apart. */
  lemma FloorSurvivesRounding(n: nat, d: nat)
    requires 0 < d && n < d * PRECISION_LIMIT
    requires d < 2 * Pow10(Places(n, d))
    ensures FloorHz(Quotient(n, d)) == FloorDiv(n, d)
  {
    var m := Pow10(Places(n, d));
    FloorOfRounded(n, d, m, HalfEven(n * m, d));
  }

  lemma FloorOfRounded(n: nat, d: nat, m: nat, c: nat)
    requires 0 < d < 2 * m
    requires 2 * (n * m) - d <= 2 * (c * d) <= 2 * (n * m) + d
    ensures FloorDiv(c, m) == FloorDiv(n, d)
  {
    var q := FloorDiv(n, d);
    FloorDivIsGreatest(n, d, q);
    FloorDivIsGreatest(n, d, q + 1);
    if c < q * m {
      RoundedTooLow(n, d, m, c, q);
    }
    if c >= (q + 1) * m {
      RoundedTooHigh(n, d, m, c, q + 1);
    }
    FloorDivIsGreatest(c, m, q);
    FloorDivIsGreatest(c, m, q + 1);
  }

  lemma RoundedTooLow(n: int, d: int, m: int, c: int, q: int)
    requires 0 < d && 0 < m && q * d <= n && c < q * m
    ensures 2 * (c * d) < 2 * (n * m) - d
  {
    MulMonotone(c + 1, q * m, d);
    Rearranged(q, m, d);
    MulMonotone(q * d, n, m);
    assert (c + 1) * d == c * d + d;
  }

  lemma RoundedTooHigh(n: int, d: int, m: int, c: int, q: int)
    requires 0 < d < 2 * m && n + 1 <= q * d && c >= q * m
    ensures 2 * (c * d) > 2 * (n * m) + d
  {
    MulMonotone(q * m, c, d);
    Rearranged(q, m, d);
    MulMonotone(n + 1, q * d, m);
    assert (n + 1) * m == n * m + m;
  }

  /** The fewer digits the integer part needs, the more decimal places remain. */
  lemma {:induction false} PlacesAtLeast(n: nat, d: nat, e: nat)
    requires 0 < d && 0 < n && n < d * PRECISION_LIMIT
    requires n * Pow10(e) < d * PRECISION_LIMIT
    ensures Places(n, d) >= e
    decreases e
  {
    if e > 0 {
      var rest := Pow10(e - 1);
      TenTimes(n, rest);
      MulMonotone(1, rest, n * 10);
      PlacesAtLeast(n * 10, d, e - 1);
    }
  }

  lemma TenTimes(n: int, p: int)
    ensures n * (10 * p) == p * (n * 10) == (n * 10) * p
  {
  }

  lemma {:induction false} Pow10Grows(a: nat, b: nat)
    requires a <= b
    ensures Pow10(a) <= Pow10(b)
    decreases b - a
  {
    if a < b {
      Pow10Grows(a, b - 1);
    }
  }
}
