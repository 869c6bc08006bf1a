/** Small real-number helpers shared by the gauge, engine and looping models.
    They stand for `Math.abs`, `Math.min`, `Math.max`, `Math.floor` and
    `Math.ceil` on exact reals. */
module Arith {

  function Abs(x: real): (r: real)
    ensures r >= 0.0 && (r == x || r == -x)
  {
    if x < 0.0 then -x else x
  }

  function Min(a: real, b: real): (r: real)
    ensures r <= a && r <= b && (r == a || r == b)
  {
    if a <= b then a else b
  }

  function Max(a: real, b: real): (r: real)
    ensures r >= a && r >= b && (r == a || r == b)
  {
    if a >= b then a else b
  }

  /** `x` lies in the closed interval spanned by `a` and `b`, whichever is larger. */
  predicate Between(x: real, a: real, b: real)
  {
    (a <= x <= b) || (b <= x <= a)
  }

  /** `Math.floor`: the greatest integer not above `x`. */
  function Floor(x: real): (n: int)
    ensures n as real <= x < n as real + 1.0
  {
    x.Floor
  }

  /** `Math.ceil`: the least integer not below `x`. */
  function Ceil(x: real): (n: int)
    ensures x <= n as real < x + 1.0
  {
    -((-x).Floor)
  }

  // Facts about products and quotients that the solver does not find unaided.

  lemma MulNonneg(x: real, y: real)
    requires x >= 0.0 && y >= 0.0
    ensures x * y >= 0.0
  {
  }

  lemma MulMono(a: real, b: real, t: real)
    requires a <= b && t >= 0.0
    ensures a * t <= b * t
  {
    MulNonneg(b - a, t);
  }

  lemma MulStrictMono(a: real, b: real, t: real)
    requires a < b && t > 0.0
    ensures a * t < b * t
  {
    assert b * t - a * t == (b - a) * t;
  }

  /** Dividing by a positive number keeps bounds: `lo <= p / q < hi` when
      `lo * q <= p < hi * q`. */
  lemma DivBounds(p: real, q: real, lo: real, hi: real)
    requires q > 0.0 && lo * q <= p < hi * q
    ensures lo <= p / q < hi
  {
    var r := p / q;
    assert r * q == p;
    if r < lo { MulStrictMono(r, lo, q); }
    if r >= hi { MulMono(hi, r, q); }
  }

  lemma DivUnit(p: real, q: real)
    requires 0.0 <= p <= q && q > 0.0
    ensures 0.0 <= p / q <= 1.0
  {
    var r := p / q;
    assert r * q == p;
    if r < 0.0 { MulStrictMono(r, 0.0, q); }
    if r > 1.0 { MulStrictMono(1.0, r, q); }
  }

  lemma DivMono(p1: real, p2: real, q: real)
    requires p1 <= p2 && q > 0.0
    ensures p1 / q <= p2 / q
  {
    assert p2 / q - p1 / q == (p2 - p1) / q;
    DivUnit(0.0, 1.0);
    var r := (p2 - p1) / q;
    assert r * q == p2 - p1;
    if r < 0.0 { MulStrictMono(r, 0.0, q); }
  }

  lemma DivMulCancel(a: real, q: real)
    requires q != 0.0
    ensures (a / q) * q == a
  {
  }

  lemma MulDivCancel(a: real, q: real)
    requires q != 0.0
    ensures (a * q) / q == a
  {
  }

  lemma DivStrictMono(p1: real, p2: real, q: real)
    requires p1 < p2 && q > 0.0
    ensures p1 / q < p2 / q
  {
    var r := (p2 - p1) / q;
    assert p2 / q - p1 / q == r;
    assert r * q == p2 - p1;
    if r <= 0.0 { MulMono(r, 0.0, q); }
  }

  /** Scaling by a positive number preserves order: `a <= b * q` exactly when
      `a / q <= b`, and likewise the other way round. */
  lemma ScaledOrder(a: real, b: real, q: real)
    requires q > 0.0
    ensures a <= b * q <==> a / q <= b
    ensures b * q <= a <==> b <= a / q
  {
    DivMulCancel(a, q);
    var x := a / q;
    if x <= b { MulMono(x, b, q); } else { MulStrictMono(b, x, q); }
    if b <= x { MulMono(b, x, q); } else { MulStrictMono(x, b, q); }
  }

  /** The multiples `k * q` inside `[lo, hi]` are those with
      `ceil(lo / q) <= k <= floor(hi / q)`. */
  lemma MultipleInRange(lo: real, hi: real, q: real, k: int)
    requires q > 0.0
    ensures (lo <= k as real * q <= hi) <==> (Ceil(lo / q) <= k <= Floor(hi / q))
  {
    ScaledOrder(lo, k as real, q);
    ScaledOrder(hi, k as real, q);
  }

  /** `i` steps of `q` on from the multiple `lo * q` reach the multiple `(lo + i) * q`. */
  lemma ShiftedMultiple(lo: int, i: int, q: real, first: real)
    requires first == lo as real * q
    ensures first + i as real * q == (lo + i) as real * q
  {
    Distrib(lo as real, i as real, q);
  }

  /** Points `i` and `j` steps of a positive `q` on from `first` keep the order of `i` and `j`. */
  lemma StepsAscend(first: real, q: real, i: int, j: int)
    requires q > 0.0 && i < j
    ensures first + i as real * q < first + j as real * q
  {
    MulStrictMono(i as real, j as real, q);
  }

  /** Negating one factor negates the product. */
  lemma MulNeg(a: real, b: real)
    ensures (-a) * b == -(a * b) && a * (-b) == -(a * b)
  {
    Distrib(a, -a, b);
  }

  lemma Distrib(a: real, b: real, q: real)
    ensures a * q + b * q == (a + b) * q
  {
  }

  /** `k` steps are `k - 1` steps and one more. */
  lemma MulSucc(k: int, q: real)
    ensures (k - 1) as real * q + q == k as real * q
  {
    Distrib((k - 1) as real, 1.0, q);
  }

  /** A zero numerator gives 0 and equal numerator and denominator give 1. */
  lemma DivFacts(p: real, q: real)
    requires q != 0.0
    ensures p == 0.0 ==> p / q == 0.0
    ensures p == q ==> p / q == 1.0
  {
  }

  /** A value in `[-f, f]` scaled by a factor in `[-1, 1]` stays in `[-f, f]`. */
  lemma MulWithinBand(d: real, q: real, f: real)
    requires -f <= d <= f && -1.0 <= q <= 1.0
    ensures -f <= d * q <= f
  {
    if d >= 0.0 {
      MulWithinBandNonneg(d, q, f);
    } else {
      MulWithinBandNonneg(-d, q, f);
      MulNeg(d, q);
    }
  }

  lemma MulWithinBandNonneg(d: real, q: real, f: real)
    requires 0.0 <= d <= f && -1.0 <= q <= 1.0
    ensures -f <= d * q <= f
  {
    if q >= 0.0 {
      MulMono(q, 1.0, d);
      MulNonneg(d, q);
    } else {
      MulMono(-1.0, q, d);
      MulNonneg(d, -q);
      MulNeg(d, q);
    }
  }

  /** A fraction `t` of the gap from `a` up to `b` lies between 0 and the gap. */
  lemma FractionOfGap(t: real, a: real, b: real)
    requires 0.0 <= t <= 1.0 && a <= b
    ensures 0.0 <= t * b - t * a <= b - a
  {
    MulNonneg(t, b - a);
    MulNonneg(1.0 - t, b - a);
  }

  /** `m * q` stays below `b`, the product `x * q` and one more `q`, when `m < x + 1`. */
  lemma BelowNextMultiple(m: real, x: real, q: real, b: real)
    requires q > 0.0 && m < x + 1.0 && b == x * q + q
    ensures m * q < b
  {
    MulStrictMono(m, x + 1.0, q);
    Distrib(x, 1.0, q);
  }

  /** Scaling by a positive `q` keeps `x <= m`, where `x * q` is known to be `a`. */
  lemma ScaledAbove(a: real, q: real, m: real, x: real)
    requires q > 0.0 && x * q == a && x <= m
    ensures a <= m * q
  {
    MulMono(x, m, q);
  }

  /** `ceil(a / q) * q` is the first multiple of `q` at or above `a`. */
  lemma CeilMultiple(a: real, q: real)
    requires q > 0.0
    ensures a <= Ceil(a / q) as real * q < a + q
  {
    DivMulCancel(a, q);
    ScaledAbove(a, q, Ceil(a / q) as real, a / q);
    BelowNextMultiple(Ceil(a / q) as real, a / q, q, a + q);
  }

  /** `floor(a / q) * q` is the last multiple of `q` at or below `a`. */
  lemma FloorMultiple(a: real, q: real)
    requires q > 0.0
    ensures a - q < Floor(a / q) as real * q <= a
  {
    DivMulCancel(a, q);
    ScaledAbove(Floor(a / q) as real * q, q, a / q, Floor(a / q) as real);
    BelowNextMultiple(a / q, Floor(a / q) as real, q, Floor(a / q) as real * q + q);
  }

  /** The gap between two multiples of `q`, measured in steps of `q`. */
  lemma MultipleGap(lo: int, hi: int, q: real, first: real, last: real)
    requires q > 0.0 && first == lo as real * q && last == hi as real * q
    ensures (last - first) / q == (hi - lo) as real
    ensures Floor((last - first) / q) == hi - lo
  {
    assert last - first == (hi - lo) as real * q;
    MulDivCancel((hi - lo) as real, q);
  }
}
