/** The sum of two float32 numbers: the exact sum, rounded to nearest with ties to even. */
module Float32 {

  const MAX := 340282346638528859811704183484516925440.0  // 16777215 times the largest unit
  const LARGEST_UNIT := 20282409603651670423947251286016.0  // 2 to the 104th
  const EXPONENTS := 253  // halvings down to the smallest unit, 2 to the -149th
  const SIGNIFICAND := 16777216.0  // 2 to the 24th
  const INFINITY := 680564733841876926926749214863536422912.0  // stands above every finite sum

  /** The distance of neighbouring float32 numbers around `x`. */
  function Unit(x: real, u: real, k: nat): (r: real)
    requires 0.0 < u
    ensures 0.0 < r <= u
    decreases k
  {
    if k == 0 || SIGNIFICAND * u <= 2.0 * x then u else Unit(x, u / 2.0, k - 1)
  }

  /** The integer nearest to `t`, the even one if there are two. */
  function NearestInt(t: real): (n: int)
    ensures t.Floor <= n <= t.Floor + 1
    ensures n == t.Floor + 1 ==> t != t.Floor as real
  {
    var rest := t - t.Floor as real;
    if rest < 0.5 || (rest == 0.5 && t.Floor % 2 == 0) then t.Floor else t.Floor + 1
  }

  function Times(n: int, u: real): real
  {
    n as real * u
  }

  /** The multiple of `u` nearest to `x`. */
  function Nearest(x: real, u: real): real
    requires 0.0 < u
  {
    Times(NearestInt(x / u), u)
  }

  function RoundPositive(x: real): real
    requires 0.0 <= x
  {
    var r := Nearest(x, Unit(x, LARGEST_UNIT, EXPONENTS));
    if r > MAX then INFINITY else r
  }

  function Round(x: real): real
  {
    if x < 0.0 then -RoundPositive(-x) else RoundPositive(x)
  }

  function Add(x: real, y: real): real
  {
    Round(x + y)
  }

  lemma NearestIntGrows(t: real, v: real)
    requires t <= v
    ensures NearestInt(t) <= NearestInt(v)
  {
  }

  lemma ProductIsPositive(a: real, u: real)
    requires 0.0 < u && 0.0 < a
    ensures 0.0 < a * u
  {
  }

  lemma ProductGrows(a: real, b: real, u: real)
    requires 0.0 < u
    ensures a < b ==> a * u < b * u
    ensures a <= b ==> a * u <= b * u
  {
    assert b * u - a * u == (b - a) * u;
    if a < b {
      ProductIsPositive(b - a, u);
    }
  }

  lemma QuotientGrows(x: real, y: real, u: real)
    requires 0.0 < u && x <= y
    ensures x / u <= y / u
  {
    var t, v := x / u, y / u;
    assert t * u == x && v * u == y;
    ProductGrows(v, t, u);
  }

  lemma QuotientOfMultiple(n: int, u: real)
    requires 0.0 < u
    ensures Times(n, u) / u == n as real
  {
    var t := Times(n, u) / u;
    assert t * u == n as real * u;
    ProductGrows(t, n as real, u);
    ProductGrows(n as real, t, u);
  }

  lemma TimesGrows(m: int, n: int, u: real)
    requires 0.0 < u && m <= n
    ensures Times(m, u) <= Times(n, u)
  {
    ProductGrows(m as real, n as real, u);
  }

  lemma NearestGrows(x: real, y: real, u: real)
    requires 0.0 < u && x <= y
    ensures Nearest(x, u) <= Nearest(y, u)
  {
    QuotientGrows(x, y, u);
    NearestIntGrows(x / u, y / u);
    TimesGrows(NearestInt(x / u), NearestInt(y / u), u);
    hide Times, NearestInt;
  }

  /** Nothing is rounded across a multiple. */
  lemma NearestOfMultiple(n: int, u: real)
    requires 0.0 < u
    ensures Nearest(Times(n, u), u) == Times(n, u)
  {
    QuotientOfMultiple(n, u);
    assert NearestInt(n as real) == n;
    hide Times, NearestInt;
  }

  /** A larger number has the same or a larger unit, and in the second case a boundary lies between the two. */
  lemma {:induction false} UnitGrows(x: real, y: real, u: real, k: nat)
    requires 0.0 < u && x <= y
    decreases k
    ensures var v, w := Unit(x, u, k), Unit(y, u, k);
      v == w || (2.0 * v <= w && x <= SIGNIFICAND * v && SIGNIFICAND * w <= 2.0 * y)
  {
    if k > 0 && 2.0 * y < SIGNIFICAND * u {
      UnitGrows(x, y, u / 2.0, k - 1);
    } else if k > 0 && 2.0 * x < SIGNIFICAND * u {
      UnitBounds(x, u / 2.0, k - 1);
    }
  }

  lemma {:induction false} UnitBounds(x: real, u: real, k: nat)
    requires 0.0 < u && x <= SIGNIFICAND * u
    ensures x <= SIGNIFICAND * Unit(x, u, k)
    decreases k
  {
    if k > 0 && 2.0 * x < SIGNIFICAND * u {
      UnitBounds(x, u / 2.0, k - 1);
    }
  }

  lemma RoundPositiveGrows(x: real, y: real)
    requires 0.0 <= x <= y
    ensures 0.0 <= RoundPositive(x) <= RoundPositive(y)
  {
    var v, w := Unit(x, LARGEST_UNIT, EXPONENTS), Unit(y, LARGEST_UNIT, EXPONENTS);
    UnitGrows(x, y, LARGEST_UNIT, EXPONENTS);
    hide Unit, Nearest;
    assert Times(0, v) == 0.0;
    NearestGrows(Times(0, v), x, v);
    NearestOfMultiple(0, v);
    if v == w {
      NearestGrows(x, y, v);
    } else {
      NearestGrows(x, Times(16777216, v), v);
      NearestOfMultiple(16777216, v);
      NearestGrows(Times(8388608, w), y, w);
      NearestOfMultiple(8388608, w);
    }
  }

  /** Rounding keeps the order. */
  lemma RoundGrows(x: real, y: real)
    requires x <= y
    ensures Round(x) <= Round(y)
  {
    hide RoundPositive;
    if y < 0.0 {
      RoundPositiveGrows(-y, -x);
    } else {
      RoundPositiveGrows(0.0, y);
      if x < 0.0 {
        RoundPositiveGrows(0.0, -x);
      } else {
        RoundPositiveGrows(x, y);
      }
    }
  }

  /** What is added to the largest float32 is lost up to half a unit. */
  lemma LargestAbsorbs(x: real)
    requires 0.0 <= x && 2.0 * x < LARGEST_UNIT
    ensures Add(MAX, x) == MAX
  {
    var t := (MAX + x) / LARGEST_UNIT;
    assert t == 16777215.0 + x / LARGEST_UNIT;
    assert NearestInt(t) == 16777215;
    assert Unit(MAX + x, LARGEST_UNIT, EXPONENTS) == LARGEST_UNIT;
  }

  /** From half a unit on the sum overflows. */
  lemma LargestOverflows(x: real)
    requires LARGEST_UNIT <= 2.0 * x
    ensures Add(MAX, x) == INFINITY
  {
    var t := (MAX + x) / LARGEST_UNIT;
    assert t == 16777215.0 + x / LARGEST_UNIT;
    assert NearestInt(t) >= 16777216;
    assert Unit(MAX + x, LARGEST_UNIT, EXPONENTS) == LARGEST_UNIT;
    TimesGrows(16777216, NearestInt(t), LARGEST_UNIT);
  }
  // Which numbers are float32 numbers, and that rounding goes to the nearest.

  function Halve(u: real, j: nat): (r: real)
    requires 0.0 < u
    ensures 0.0 < r <= u
    decreases j
  {
    if j == 0 then u else Halve(u / 2.0, j - 1)
  }

  lemma {:induction false} HalveTwice(u: real, i: nat, j: nat)
    requires 0.0 < u
    ensures Halve(u, i + j) == Halve(Halve(u, i), j)
    decreases i
  {
    if i > 0 {
      HalveTwice(u / 2.0, i - 1, j);
    }
  }

  lemma HalveBy16(u: real)
    requires 0.0 < u
    ensures Halve(u, 16) == u / 65536.0
  {
    assert Halve(u, 4) == u / 16.0;
    assert Halve(u / 16.0, 4) == u / 256.0;
    HalveTwice(u, 4, 4);
    HalveTwice(u, 8, 4);
    assert Halve(u / 256.0, 4) == u / 4096.0;
    HalveTwice(u, 12, 4);
    assert Halve(u / 4096.0, 4) == u / 65536.0;
  }

  lemma HalveBy64(u: real)
    requires 0.0 < u
    ensures Halve(u, 64) == u / 18446744073709551616.0
  {
    HalveBy16(u);
    HalveBy16(u / 65536.0);
    HalveBy16(u / 4294967296.0);
    HalveBy16(u / 281474976710656.0);
    hide Halve;
    HalveTwice(u, 16, 16);
    HalveTwice(u, 32, 16);
    HalveTwice(u, 48, 16);
  }

  /** One is the largest unit halved 104 times. */
  lemma OneIsAUnit()
    ensures Halve(LARGEST_UNIT, 104) == 1.0
  {
    HalveBy64(LARGEST_UNIT);
    HalveBy16(1099511627776.0);
    HalveBy16(16777216.0);
    assert Halve(256.0, 4) == 16.0 && Halve(16.0, 4) == 1.0;
    hide Halve;
    HalveTwice(LARGEST_UNIT, 64, 16);
    HalveTwice(LARGEST_UNIT, 80, 16);
    HalveTwice(LARGEST_UNIT, 96, 4);
    HalveTwice(LARGEST_UNIT, 100, 4);
  }

  const SMALLEST_NORMAL := 1.0 / 85070591730234615865843651857942052864.0  // 2 to the -126th

  /** The smallest unit is 2 to the -149th. */
  lemma SmallestUnit()
    ensures Halve(LARGEST_UNIT, EXPONENTS) * SIGNIFICAND == 2.0 * SMALLEST_NORMAL
  {
    OneIsAUnit();
    var v := 1.0 / 18446744073709551616.0;
    HalveBy64(1.0);
    HalveBy64(v);
    var w := v / 18446744073709551616.0;
    HalveBy16(w);
    assert Halve(w / 65536.0, 4) == w / 1048576.0;
    assert Halve(w / 1048576.0, 1) == w / 2097152.0;
    hide Halve;
    HalveTwice(LARGEST_UNIT, 104, 149);
    HalveTwice(1.0, 64, 64);
    HalveTwice(1.0, 128, 16);
    HalveTwice(1.0, 144, 4);
    HalveTwice(1.0, 148, 1);
  }

  /** A number with a significand of 24 bits is a multiple of the unit around it. */
  lemma {:induction false} UnitDivides(n: nat, u: real, j: nat, k: nat) returns (m: int)
    requires 0.0 < u && n <= 16777216 && j <= k
    ensures Times(n, Halve(u, j)) == Times(m, Unit(Times(n, Halve(u, j)), u, k))
    decreases k
  {
    var p := Halve(u, j);
    var x := Times(n, p);
    if k == 0 || SIGNIFICAND * u <= 2.0 * x {
      if j == 0 {
        m := n;
      } else {
        m := 8388608;
        LastOfBinade(n, u, j);
      }
    } else if j > 0 {
      m := UnitDivides(n, u / 2.0, j - 1, k - 1);
    } else {
      FitsHalf(n, u);
      m := UnitDivides(2 * n, u / 2.0, 0, k - 1);
    }
  }

  /** If the unit around `n` smaller units is larger than those, `n` is the power of two above all significands. */
  lemma LastOfBinade(n: nat, u: real, j: nat)
    requires 0.0 < u && n <= 16777216 && j > 0 && SIGNIFICAND * u <= 2.0 * Times(n, Halve(u, j))
    ensures Times(n, Halve(u, j)) == Times(8388608, u)
  {
    var p, h := Halve(u, j), u / 2.0;
    assert p == Halve(h, j - 1) <= h;
    TimesGrows(n, 16777216, p);
    assert Times(16777216, p) == SIGNIFICAND * p;
    assert p == h;
    assert Times(n, h) >= SIGNIFICAND * h == Times(16777216, h);
  }

  lemma FitsHalf(n: nat, u: real)
    requires 0.0 < u && 2.0 * Times(n, u) < SIGNIFICAND * u
    ensures 2 * n <= 16777216 && Times(2 * n, u / 2.0) == Times(n, u)
  {
    if 2 * n > 16777216 {
      TimesGrows(8388608, n, u);
    }
  }

  /** Every number of the format rounds to itself: a significand of 24 bits times a unit, up to the largest. */
  lemma RepresentableIsExact(n: int, j: nat)
    requires -16777216 <= n <= 16777216 && j <= EXPONENTS
    requires -MAX <= Times(n, Halve(LARGEST_UNIT, j)) <= MAX
    ensures Round(Times(n, Halve(LARGEST_UNIT, j))) == Times(n, Halve(LARGEST_UNIT, j))
  {
    var p := Halve(LARGEST_UNIT, j);
    var size := if n < 0 then -n else n;
    assert Times(size, p) == if n < 0 then -Times(n, p) else Times(n, p);
    TimesGrows(0, size, p);
    var m := UnitDivides(size, LARGEST_UNIT, j, EXPONENTS);
    NearestOfMultiple(m, Unit(Times(size, p), LARGEST_UNIT, EXPONENTS));
    hide Nearest, Unit, Halve;
    assert RoundPositive(Times(size, p)) == Times(size, p);
    if n < 0 && Times(n, p) >= 0.0 {
      assert Times(n, p) == 0.0;
    }
  }

  /** Sums of whole numbers are exact as long as they have 24 bits. */
  lemma WholeSumsAreExact(x: int, y: int)
    requires -16777216 <= x + y <= 16777216
    ensures Add(x as real, y as real) == (x + y) as real
  {
    OneIsAUnit();
    assert Times(x + y, 1.0) == (x + y) as real;
    RepresentableIsExact(x + y, 104);
    hide Round;
  }

  lemma {:induction false} UnitIsSmall(x: real, u: real, k: nat)
    requires 0.0 < u && Halve(u, k) * SIGNIFICAND <= 2.0 * x
    ensures SIGNIFICAND * Unit(x, u, k) <= 2.0 * x
    decreases k
  {
    if k > 0 && 2.0 * x < SIGNIFICAND * u {
      UnitIsSmall(x, u / 2.0, k - 1);
    }
  }

  function Product(a: real, u: real): real
  {
    a * u
  }

  lemma ProductIsMonotone(a: real, b: real, u: real)
    requires 0.0 < u && a <= b
    ensures Product(a, u) <= Product(b, u)
  {
    ProductGrows(a, b, u);
  }

  lemma Difference(a: real, b: real, u: real)
    ensures Product(a, u) - Product(b, u) == Product(a - b, u)
  {
  }

  lemma HalfAtMost(e: real, u: real)
    requires 0.0 < u && -0.5 <= e <= 0.5
    ensures -0.5 * u <= Product(e, u) <= 0.5 * u
  {
    ProductIsMonotone(e, 0.5, u);
    ProductIsMonotone(-0.5, e, u);
    assert Product(0.5, u) == 0.5 * u && Product(-0.5, u) == -0.5 * u;
    hide Product;
  }

  lemma QuotientTimes(x: real, u: real)
    requires 0.0 < u
    ensures Product(x / u, u) == x
  {
  }

  lemma TimesIsProduct(n: int, u: real)
    ensures Times(n, u) == Product(n as real, u)
  {
  }

  lemma NearestIsClose(x: real, u: real)
    requires 0.0 < u
    ensures -u <= 2.0 * (Nearest(x, u) - x) <= u
  {
    var t, n := x / u, NearestInt(x / u);
    assert -0.5 <= n as real - t <= 0.5;
    hide Product, Times, NearestInt;
    QuotientTimes(x, u);
    TimesIsProduct(n, u);
    Difference(n as real, t, u);
    HalfAtMost(n as real - t, u);
  }

  /** In the normal range rounding changes a number by at most one part in 2 to the 24th. */
  lemma RoundsToNearest(x: real)
    requires SMALLEST_NORMAL <= x <= MAX || SMALLEST_NORMAL <= -x <= MAX
    ensures var size := if x < 0.0 then -x else x; -size <= (Round(x) - x) * SIGNIFICAND <= size
  {
    RoundsPositiveToNearest(if x < 0.0 then -x else x);
    hide RoundPositive;
  }

  lemma RoundsPositiveToNearest(x: real)
    requires SMALLEST_NORMAL <= x <= MAX
    ensures -x <= (RoundPositive(x) - x) * SIGNIFICAND <= x
  {
    var u := Unit(x, LARGEST_UNIT, EXPONENTS);
    SmallestUnit();
    UnitIsSmall(x, LARGEST_UNIT, EXPONENTS);
    NearestIsClose(x, u);
    RoundPositiveGrows(x, MAX);
    LargestAbsorbs(0.0);
    hide Unit, Nearest, Halve;
    assert RoundPositive(x) == Nearest(x, u);
  }
}
