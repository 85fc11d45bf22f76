/** Rounding a non-negative real to a double, roundTiesToEven, as section 4.3.1 of IEEE 754-2019
    defines it. Exponents are unbounded here: every value this project rounds is zero or lies
    between 2^-63 and 2^63, far from overflow and from the subnormal range. */
module Ieee {

  /** Two to the power e. */
  function Pow2(e: int): (p: real)
    ensures p > 0.0
    decreases if e < 0 then -e else e
  {
    if e == 0 then 1.0 else if e > 0 then 2.0 * Pow2(e - 1) else Pow2(e + 1) / 2.0
  }

  /** The binade of a positive real. */
  function Exponent(x: real): (e: int)
    requires x > 0.0
    ensures Pow2(e) <= x < Pow2(e + 1)
    decreases x < 1.0, if x >= 1.0 then x.Floor else (1.0 / x).Floor
  {
    if x >= 2.0 then
      assert (x / 2.0).Floor < x.Floor;
      1 + Exponent(x / 2.0)
    else if x >= 1.0 then 0
    else
      HalvingShrinks(x);
      Exponent(2.0 * x) - 1
  }

  lemma HalvingShrinks(x: real)
    requires 0.0 < x < 1.0
    ensures 2.0 * x < 1.0 ==> (1.0 / (2.0 * x)).Floor < (1.0 / x).Floor
  {
    var y := 1.0 / x;
    assert y * x == 1.0;
    assert y > 1.0;
    assert 1.0 / (2.0 * x) == y / 2.0;
  }

  /** The nearest integer, ties to even. */
  function HalfEven(x: real): int {
    var d := x - x.Floor as real;
    if d < 0.5 || (d == 0.5 && x.Floor % 2 == 0) then x.Floor else x.Floor + 1
  }

  /** The nearest multiple of ulp, ties to even. */
  function RoundTo(x: real, ulp: real): real
    requires ulp > 0.0
  {
    HalfEven(x / ulp) as real * ulp
  }

  /** The nearest double, ties to even: 53 significant bits. */
  function Round(x: real): real
    requires x >= 0.0
  {
    if x == 0.0 then 0.0 else RoundTo(x, Pow2(Exponent(x) - 52))
  }

  lemma Pow2Doubles(e: int)
    ensures Pow2(e + 1) == 2.0 * Pow2(e)
  {}

  lemma {:induction false} Pow2Increases(a: int, b: int)
    requires a <= b
    ensures Pow2(a) <= Pow2(b)
    decreases b - a
  {
    if a < b {
      Pow2Increases(a, b - 1);
    }
  }

  lemma MulAssociates(p: real, q: real)
    ensures p * (2.0 * q) == 2.0 * (p * q)
  {}

  lemma Pow2Zero()
    ensures Pow2(0) == 1.0
  {}

  lemma Pow2AddsOne(a: int, n: nat)
    requires Pow2(a + n) == Pow2(a) * Pow2(n)
    ensures Pow2(a + (n + 1)) == Pow2(a) * Pow2(n + 1)
  {
    hide Pow2;
    Pow2Doubles(a + n);
    Pow2Doubles(n);
    MulAssociates(Pow2(a), Pow2(n));
  }

  lemma {:induction false} Pow2Adds(a: int, n: nat)
    ensures Pow2(a + n) == Pow2(a) * Pow2(n)
  {
    hide Pow2;
    if n == 0 {
      Pow2Zero();
    } else {
      Pow2Adds(a, n - 1);
      Pow2AddsOne(a, n - 1);
    }
  }

  lemma HalfEvenMonotone(x: real, y: real)
    requires x <= y
    ensures HalfEven(x) <= HalfEven(y)
  {}

  lemma DivMonotone(x: real, y: real, u: real)
    requires x <= y && u > 0.0
    ensures x / u <= y / u
  {
    assert (y / u - x / u) * u == y - x;
  }

  lemma MulMonotone(x: real, y: real, u: real)
    requires x <= y && u >= 0.0
    ensures x * u <= y * u
  {}

  lemma RoundToMonotone(x: real, y: real, ulp: real)
    requires x <= y && ulp > 0.0
    ensures RoundTo(x, ulp) <= RoundTo(y, ulp)
  {
    DivMonotone(x, y, ulp);
    HalfEvenMonotone(x / ulp, y / ulp);
    MulMonotone(HalfEven(x / ulp) as real, HalfEven(y / ulp) as real, ulp);
  }

  lemma RoundToMultiple(x: real, n: int, ulp: real)
    requires ulp > 0.0 && x == n as real * ulp
    ensures RoundTo(x, ulp) == x
  {
    assert n as real * ulp / ulp == n as real;
  }

  const TWO_52: int := 4503599627370496

  lemma Pow2Of52()
    ensures Pow2(52) == TWO_52 as real
  {
    assert Pow2(13) == 8192.0;
    hide Pow2;
    Pow2Adds(13, 13);
    Pow2Adds(26, 26);
  }

  /** A power of two counted in units of the last place of its binade. */
  lemma BinadeInUlps(e: int)
    ensures Pow2(e) == TWO_52 as real * Pow2(e - 52)
    ensures Pow2(e + 1) == (2 * TWO_52) as real * Pow2(e - 52)
  {
    Pow2Of52();
    Pow2Adds(e - 52, 52);
    assert Pow2(e + 1) == 2.0 * Pow2(e);
  }

  /** Rounding never leaves the closed binade: it lands between the powers of two around x. */
  lemma RoundStaysInBinade(x: real)
    requires x > 0.0
    ensures Pow2(Exponent(x)) <= Round(x) <= Pow2(Exponent(x) + 1)
  {
    hide Pow2, RoundTo;
    var e := Exponent(x);
    var ulp := Pow2(e - 52);
    BinadeInUlps(e);
    RoundToMonotone(Pow2(e), x, ulp);
    RoundToMonotone(x, Pow2(e + 1), ulp);
    RoundToMultiple(Pow2(e), TWO_52, ulp);
    RoundToMultiple(Pow2(e + 1), 2 * TWO_52, ulp);
  }

  lemma ExponentMonotone(x: real, y: real)
    requires 0.0 < x <= y
    ensures Exponent(x) <= Exponent(y)
  {
    if Exponent(y) < Exponent(x) {
      Pow2Increases(Exponent(y) + 1, Exponent(x));
    }
  }

  /** Rounding is monotone. */
  lemma RoundMonotone(x: real, y: real)
    requires 0.0 <= x <= y
    ensures 0.0 <= Round(x) <= Round(y)
  {
    if x > 0.0 {
      RoundStaysInBinade(x);
      RoundStaysInBinade(y);
      ExponentMonotone(x, y);
      if Exponent(x) == Exponent(y) {
        RoundToMonotone(x, y, Pow2(Exponent(x) - 52));
      } else {
        Pow2Increases(Exponent(x) + 1, Exponent(y));
      }
    } else if y > 0.0 {
      RoundStaysInBinade(y);
    }
  }

  lemma ExponentIs(x: real, e: int)
    requires Pow2(e) <= x < Pow2(e + 1)
    ensures Exponent(x) == e
  {
    if Exponent(x) < e {
      Pow2Increases(Exponent(x) + 1, e);
    } else if e < Exponent(x) {
      Pow2Increases(e + 1, Exponent(x));
    }
  }

  lemma RoundIs(x: real, e: int)
    requires Pow2(e) <= x < Pow2(e + 1)
    ensures x > 0.0 && Round(x) == RoundTo(x, Pow2(e - 52))
  {
    hide Pow2, RoundTo, Exponent;
    ExponentIs(x, e);
  }

  /** Powers of two are doubles. */
  lemma RoundPow2(e: int)
    ensures Round(Pow2(e)) == Pow2(e)
  {
    hide Pow2, Round, RoundTo;
    Pow2Doubles(e);
    RoundIs(Pow2(e), e);
    BinadeInUlps(e);
    RoundToMultiple(Pow2(e), TWO_52, Pow2(e - 52));
  }

  // ------------------------------------------------------------------ the nearest double

  function Scaled(m: int, e: int): real {
    m as real * Pow2(e)
  }

  /** A double: at most 53 significant bits, at some power of two. */
  ghost predicate IsDouble(y: real) {
    exists m: nat, e: int :: m < 2 * TWO_52 && y == Scaled(m, e)
  }

  function Distance(x: real, y: real): real {
    if x <= y then y - x else x - y
  }

  lemma HalfEvenIsNearest(q: real, n: int)
    ensures Distance(q, HalfEven(q) as real) <= Distance(q, n as real)
    ensures Distance(q, HalfEven(q) as real) == Distance(q, n as real) && n != HalfEven(q) ==> HalfEven(q) % 2 == 0
  {}

  lemma MulStrict(a: real, b: real, u: real)
    requires a < b && u > 0.0
    ensures a * u < b * u
  {}

  lemma DistanceScales(a: real, b: real, u: real, x: real, y: real) returns (d: real)
    requires u > 0.0 && x == a * u && y == b * u
    ensures d == Distance(a, b) && Distance(x, y) == d * u
  {
    d := Distance(a, b);
    if a > b {
      MulStrict(b, a, u);
      assert x - y == (a - b) * u;
    } else {
      MulMonotone(a, b, u);
      assert y - x == (b - a) * u;
    }
  }

  lemma RoundToMeans(x: real, ulp: real)
    requires ulp > 0.0
    ensures RoundTo(x, ulp) == HalfEven(x / ulp) as real * ulp && x == x / ulp * ulp
  {}

  lemma RoundToIsNearest(x: real, ulp: real, n: int, other: real)
    requires ulp > 0.0 && other == n as real * ulp
    ensures Distance(x, RoundTo(x, ulp)) <= Distance(x, other)
    ensures Distance(x, RoundTo(x, ulp)) == Distance(x, other) && other != RoundTo(x, ulp) ==>
      HalfEven(x / ulp) % 2 == 0
  {
    hide RoundTo, HalfEven, Distance;
    RoundToMeans(x, ulp);
    NearestScales(x / ulp, n, ulp, x, RoundTo(x, ulp), other);
  }

  /** The same in units of ulp: x is q of them, rounded, and other is n of them. */
  lemma NearestScales(q: real, n: int, ulp: real, x: real, rounded: real, other: real)
    requires ulp > 0.0 && x == q * ulp && rounded == HalfEven(q) as real * ulp && other == n as real * ulp
    ensures Distance(x, rounded) <= Distance(x, other)
    ensures Distance(x, rounded) == Distance(x, other) && other != rounded ==> HalfEven(q) % 2 == 0
  {
    hide HalfEven, Distance;
    HalfEvenIsNearest(q, n);
    var a := DistanceScales(q, HalfEven(q) as real, ulp, x, rounded);
    var b := DistanceScales(q, n as real, ulp, x, other);
    NearnessScales(a, b, ulp);
  }

  lemma NearnessScales(a: real, b: real, u: real)
    requires a <= b && u > 0.0
    ensures a * u <= b * u && (a * u == b * u ==> a == b)
  {
    if a < b {
      MulStrict(a, b, u);
    }
  }

  lemma {:induction false} Pow2IsAnInteger(n: nat) returns (k: nat)
    ensures Pow2(n) == k as real
  {
    if n == 0 {
      k := 1;
    } else {
      k := Pow2IsAnInteger(n - 1);
      k := 2 * k;
    }
  }

  /** Below the last place of a binade, 53 bits do not reach the binade. */
  lemma TooSmall(m: nat, f: int, e: int)
    requires m < 2 * TWO_52 && f < e - 52
    ensures Scaled(m, f) < Pow2(e)
  {
    hide Pow2;
    BinadeInUlps(e);
    Pow2Increases(f + 1, e - 52);
    Pow2Doubles(f);
    assert m as real < 9007199254740992.0;
    FitsBelow(m as real, Pow2(f), Pow2(e - 52));
  }

  lemma FitsBelow(r: real, p: real, u: real)
    requires r < 9007199254740992.0 && p > 0.0 && 2.0 * p <= u
    ensures r * p < 4503599627370496.0 * u
  {
    MulStrict(r, 9007199254740992.0, p);
  }

  lemma DoubledScales(p: real, u: real)
    requires 2.0 * p <= u
    ensures (2 * TWO_52) as real * p <= TWO_52 as real * u
  {}

  /** A double inside or above the binade of 2^e counts in that binade's last place. */
  lemma DoubleInUlps(m: nat, f: int, e: int) returns (n: int)
    requires m < 2 * TWO_52 && Pow2(e) <= Scaled(m, f)
    ensures Scaled(m, f) == Scaled(n, e - 52)
  {
    hide Pow2;
    if f < e - 52 {
      TooSmall(m, f, e);
      assert false;
    } else {
      var k := Pow2IsAnInteger(f - (e - 52));
      Pow2Adds(e - 52, f - (e - 52));
      n := m * k;
      IntegerScales(m, k, Pow2(e - 52));
    }
  }

  lemma IntegerScales(m: int, k: int, u: real)
    ensures m as real * (u * k as real) == (m * k) as real * u
  {
    assert (m * k) as real == m as real * k as real;
  }

  lemma SignificandFits(n: int, ulp: real)
    requires ulp > 0.0 && TWO_52 as real * ulp <= n as real * ulp <= (2 * TWO_52) as real * ulp
    ensures TWO_52 <= n <= 2 * TWO_52
  {
    if n < TWO_52 {
      MulStrict(n as real, TWO_52 as real, ulp);
    }
    if n > 2 * TWO_52 {
      MulStrict((2 * TWO_52) as real, n as real, ulp);
    }
  }

  lemma RoundMeans(x: real)
    requires x > 0.0
    ensures Pow2(Exponent(x)) <= x < Pow2(Exponent(x) + 1)
    ensures Round(x) == RoundTo(x, Pow2(Exponent(x) - 52))
  {}

  /** Rounding gives a double. */
  lemma RoundIsADouble(x: real)
    requires x >= 0.0
    ensures IsDouble(Round(x))
  {
    hide Pow2, RoundTo, Exponent, HalfEven;
    if x == 0.0 {
      assert 0.0 == Scaled(0, 0);
    } else {
      RoundMeans(x);
      var e := Exponent(x);
      RoundToMeans(x, Pow2(e - 52));
      var n := HalfEven(x / Pow2(e - 52));
      BinadeInUlps(e);
      RoundStaysInBinade(x);
      RoundedIsADouble(n, e, Round(x));
    }
  }

  lemma RoundedIsADouble(n: int, e: int, y: real)
    requires y == Scaled(n, e - 52) && TWO_52 as real * Pow2(e - 52) <= y <= (2 * TWO_52) as real * Pow2(e - 52)
    ensures IsDouble(y)
  {
    hide Pow2;
    SignificandFits(n, Pow2(e - 52));
    if n == 2 * TWO_52 {
      Pow2Doubles(e - 52);
      DoubledScales(Pow2(e - 52), Pow2(e - 51));
      assert Scaled(n, e - 52) == Scaled(TWO_52, e - 51);
    }
  }

  /** The nearest one: no double is nearer, and where another is as near, the significand is even. */
  lemma RoundIsNearestEven(x: real, y: real)
    requires x >= 0.0 && IsDouble(y)
    ensures Distance(x, Round(x)) <= Distance(x, y)
    ensures x > 0.0 && Distance(x, Round(x)) == Distance(x, y) && y != Round(x) ==>
      HalfEven(x / Pow2(Exponent(x) - 52)) % 2 == 0
  {
    hide Pow2, RoundTo, Exponent, HalfEven;
    if x == 0.0 {
      DoublesAreNotNegative(y);
    } else if Pow2(Exponent(x)) <= y {
      NearestInTheBinade(x, y);
    } else {
      NearestFromBelow(x, y);
    }
  }

  lemma NearestInTheBinade(x: real, y: real)
    requires x > 0.0 && IsDouble(y) && Pow2(Exponent(x)) <= y
    ensures Distance(x, Round(x)) <= Distance(x, y)
    ensures Distance(x, Round(x)) == Distance(x, y) && y != Round(x) ==>
      HalfEven(x / Pow2(Exponent(x) - 52)) % 2 == 0
  {
    hide Pow2, Round, Exponent, HalfEven, Distance, Scaled;
    var m: nat, f: int :| m < 2 * TWO_52 && y == Scaled(m, f);
    var n := DoubleInUlps(m, f, Exponent(x));
    NearestAt(x, n, y);
  }

  lemma NearestAt(x: real, n: int, y: real)
    requires x > 0.0 && y == Scaled(n, Exponent(x) - 52)
    ensures Distance(x, Round(x)) <= Distance(x, y)
    ensures Distance(x, Round(x)) == Distance(x, y) && y != Round(x) ==>
      HalfEven(x / Pow2(Exponent(x) - 52)) % 2 == 0
  {
    hide Pow2, Round, RoundTo, Exponent, HalfEven, Distance;
    RoundMeans(x);
    RoundToIsNearest(x, Pow2(Exponent(x) - 52), n, y);
  }

  /** A double below the binade of x is farther away than the binade's first. */
  lemma NearestFromBelow(x: real, y: real)
    requires x > 0.0 && y < Pow2(Exponent(x))
    ensures Distance(x, Round(x)) < Distance(x, y)
  {
    hide Pow2, RoundTo, Exponent, HalfEven;
    RoundMeans(x);
    BinadeInUlps(Exponent(x));
    RoundToIsNearest(x, Pow2(Exponent(x) - 52), TWO_52, Pow2(Exponent(x)));
  }

  lemma DoublesAreNotNegative(y: real)
    requires IsDouble(y)
    ensures y >= 0.0
  {
    hide Pow2;
    var m: nat, f: int :| m < 2 * TWO_52 && y == Scaled(m, f);
    MulMonotone(0.0, m as real, Pow2(f));
  }
}
