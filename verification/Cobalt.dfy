/** COBALT's inverse square root in Q0.32 fixed point, and the AQM state that steps it.

    The Newton step computes in u64 and truncates to u32. The point of this module is that on
    every run of the AQM none of those operations wraps or truncates: `count * invsqrt^2` stays
    below 3 * 2^64, however the drop count is moved. */
module Cobalt {

  const S: int := 0x1_0000_0000
  const S64: int := 0x1_0000_0000_0000_0000
  const CACHE_SIZE: int := 16

  type u32 = x: int | 0 <= x < 0x1_0000_0000

  /** What an unsigned register of the given modulus keeps of a. */
  function Wrap(a: int, m: int): (r: int)
    requires m > 0
    ensures 0 <= r < m
  {
    if 0 <= a < m then a else a % m
  }

  /** One Newton step exactly as the machine performs it, every operation kept to its width. */
  function NewtonStep(count: u32, x: u32): u32 {
    var invsqrt2 := Wrap(Wrap(x * x, S64) / S, S);
    var val := Wrap(3 * S - Wrap(count * invsqrt2, S64), S64);
    Wrap(Wrap((val / 4) * x, S64) / 0x8000_0000, S)
  }

  /** The same step over the unbounded integers: x * (3 - count * x^2) / 2, rounded down twice. */
  function ExactStep(count: int, x: int): int {
    ((3 * S - count * ((x * x) / S)) / 4) * x / 0x8000_0000
  }

  /** The bound a step re-establishes. */
  ghost predicate Converged(count: int, x: int) {
    27 * (count * (x * x)) < 64 * (S * S)
  }

  /** The bound a step needs: count * x^2 < 3 * 2^64. */
  ghost predicate Steppable(count: int, x: int) {
    count * (x * x) < 3 * (S * S)
  }

  lemma SquareFits(x: u32)
    ensures 0 <= x * x < S64
  {
    MulMono(x, S - 1, x, S - 1);
  }

  lemma MulMono(a: int, b: int, c: int, d: int)
    requires 0 <= a <= b && 0 <= c <= d
    ensures 0 <= a * c <= b * d
  {
    assert (b - a) * c >= 0;
    assert b * (d - c) >= 0;
  }

  /** count * floor(x^2 / 2^32) stays below 3 * 2^32, so the subtraction cannot underflow. */
  lemma NoUnderflow(count: u32, x: u32)
    requires Steppable(count, x)
    ensures 0 <= count * ((x * x) / S) < 3 * S
  {
    var i := (x * x) / S;
    assert i * S <= x * x;
    MulMono(count, count, i * S, x * x);
    assert count * (i * S) == (count * i) * S;
    if count * i >= 3 * S {
      MulMono(3 * S, count * i, S, S);
    }
  }

  /** The polynomial fact behind convergence: (3S - w)^2 (w + S) peaks at w = S/3. */
  lemma Peak(w: int)
    requires 0 <= w <= 3 * S
    ensures 27 * ((3 * S - w) * (3 * S - w) * (w + S)) <= 256 * (S * S * S)
  {
    var d := 3 * w - S;
    assert 256 * (S * S * S) - 27 * ((3 * S - w) * (3 * S - w) * (w + S)) == (d * d) * (13 * S - 3 * w);
    assert d * d >= 0;
    MulMono(0, d * d, 0, 13 * S - 3 * w);
  }

  /** 2 * S * ExactStep <= (3S - w) * x, where w = count * floor(x^2 / S). */
  lemma StepUpper(count: u32, x: u32)
    requires Steppable(count, x)
    ensures var w := count * ((x * x) / S);
            0 <= 2 * S * ExactStep(count, x) <= (3 * S - w) * x
  {
    NoUnderflow(count, x);
    var w := count * ((x * x) / S);
    var v := (3 * S - w) / 4;
    MulMono(4 * v, 3 * S - w, x, x);
    var r := v * x / 0x8000_0000;
    assert r * 0x8000_0000 <= v * x;
    assert 4 * v * x == 4 * (v * x);
  }

  lemma SquareBound(a: int, b: int)
    requires 0 <= a <= b
    ensures a * a <= b * b
  {
    MulMono(a, b, a, b);
  }

  lemma StrictMul(c: int, a: int, b: int)
    requires c > 0 && a < b
    ensures c * a < c * b
  {
    assert c * (b - a) > 0;
  }

  lemma SquareOfProduct(a: int, b: int)
    ensures (a * b) * (a * b) == (a * a) * (b * b)
  {
    assert (a * b) * (a * b) == a * (b * (a * b));
    assert b * (a * b) == a * (b * b);
    assert a * (a * (b * b)) == (a * a) * (b * b);
  }

  lemma Reassociate(a: int, b: int, c: int)
    ensures a * (b * c) == b * (a * c) && a * (b * c) == (a * b) * c
  {
  }

  /** The step squared: 4 S^2 r^2 <= (3S - w)^2 x^2, and count * x^2 < (w + count) * S. */
  lemma StepSquares(count: u32, x: u32)
    requires count > 0 && Steppable(count, x)
    ensures var w, r := count * ((x * x) / S), ExactStep(count, x);
            && 0 <= w < 3 * S
            && (4 * (S * S)) * (r * r) <= ((3 * S - w) * (3 * S - w)) * (x * x)
            && count * (x * x) < (w + count) * S
  {
    var i := (x * x) / S;
    var w := count * i;
    var r := ExactStep(count, x);
    NoUnderflow(count, x);
    StepUpper(count, x);
    hide ExactStep;
    SquaredBound(r, 3 * S - w, x);
    FloorBound(count, x * x, i);
  }

  lemma SquaredBound(r: int, g: int, x: int)
    requires 0 <= 2 * S * r <= g * x
    ensures (4 * (S * S)) * (r * r) <= (g * g) * (x * x)
  {
    SquareBound(2 * S * r, g * x);
    SquareOfProduct(2 * S, r);
    SquareOfProduct(g, x);
  }

  lemma FloorBound(count: int, xx: int, i: int)
    requires count > 0 && i == xx / S
    ensures count * xx < (count * i + count) * S
  {
    StrictMul(count, xx, (i + 1) * S);
    Reassociate(count, i + 1, S);
    assert count * (i + 1) == count * i + count;
  }

  /** The two bounds of StepSquares multiplied together: 4 S^2 count r^2 < g^2 (w + most) S. */
  lemma Multiplied(count: int, rr: int, gg: int, xx: int, w: int, most: int)
    requires 0 < count <= most && 0 <= rr && 0 <= xx && 0 <= w && gg > 0
    requires (4 * (S * S)) * rr <= gg * xx
    requires count * xx < (w + count) * S
    ensures (4 * (S * S)) * (count * rr) < (gg * (w + most)) * S
  {
    MulMono(count, count, (4 * (S * S)) * rr, gg * xx);
    Reassociate(count, 4 * (S * S), rr);
    Reassociate(count, gg, xx);
    StrictMul(gg, count * xx, (w + count) * S);
    MulMono(gg, gg, (w + count) * S, (w + most) * S);
    Reassociate(gg, w + most, S);
  }

  lemma Chain(count: int, rr: int, gg: int, xx: int, w: int)
    requires 0 < count < S && 0 <= rr && 0 <= xx && 0 <= w < 3 * S
    requires gg == (3 * S - w) * (3 * S - w)
    requires (4 * (S * S)) * rr <= gg * xx
    requires count * xx < (w + count) * S
    ensures 27 * (count * rr) < 64 * (S * S)
  {
    StrictMul(3 * S - w, 0, 3 * S - w);
    Multiplied(count, rr, gg, xx, w, S);
    Peak(w);
  }

  /** A step from any steppable point lands below 64/27, so the bound is restored whatever
      rounding lost on the way in. */
  lemma StepConverges(count: u32, x: u32)
    requires count > 0 && Steppable(count, x)
    ensures Converged(count, ExactStep(count, x))
  {
    var w, r := count * ((x * x) / S), ExactStep(count, x);
    StepSquares(count, x);
    hide ExactStep;
    Chain(count, r * r, (3 * S - w) * (3 * S - w), x * x, w);
  }

  /** When nothing is out of range, every reduction in the machine step is the identity. */
  lemma StepIsExact(count: u32, x: u32)
    requires 0 < 3 * S - count * ((x * x) / S)
    requires 0 <= count * ((x * x) / S)
    requires 0 <= ExactStep(count, x) < S
    ensures ((3 * S - count * ((x * x) / S)) / 4) * x < S64
    ensures NewtonStep(count, x) == ExactStep(count, x)
  {
    SquareFits(x);
    var w := count * ((x * x) / S);
    var v := (3 * S - w) / 4;
    MulMono(v, S - 1, x, S - 1);
  }

  /** The exact step stays inside 32 bits: for three or more drops because it converged, below
      that when the estimate is under two thirds. */
  lemma StepFits(count: u32, x: u32)
    requires Steppable(count, x)
    requires count >= 3 || 3 * x < 2 * S
    ensures 0 <= ExactStep(count, x) < S
  {
    StepUpper(count, x);
    var r := ExactStep(count, x);
    if count >= 3 {
      StepConverges(count, x);
      if r >= S {
        SquareBound(S, r);
        MulMono(3, count, S * S, r * r);
      }
    } else {
      NoUnderflow(count, x);
      var w := count * ((x * x) / S);
      MulMono(3 * S - w, 3 * S, x, x);
    }
  }

  /** The machine step is the exact step: the subtraction does not underflow, the product does
      not overflow u64, the final cast to u32 does not truncate, and the bound is restored. */
  lemma NewtonSafety(count: u32, x: u32)
    requires Steppable(count, x)
    requires count >= 3 || 3 * x < 2 * S
    ensures 0 < 3 * S - count * ((x * x) / S)
    ensures ((3 * S - count * ((x * x) / S)) / 4) * x < S64
    ensures NewtonStep(count, x) == ExactStep(count, x)
    ensures count > 0 ==> Converged(count, NewtonStep(count, x))
  {
    NoUnderflow(count, x);
    StepFits(count, x);
    StepIsExact(count, x);
    if count > 0 { StepConverges(count, x); }
  }

  /** Moving the count by one from a converged point of at least 15 leaves a steppable point. */
  lemma NextIsSteppable(count: int, x: int, next: int)
    requires count >= 15 && 0 <= x && Converged(count, x)
    requires 0 <= next <= count + 1
    ensures Steppable(next, x)
  {
    var p := x * x;
    assert p >= 0;
    MulMono(15, count, p, p);
    MulMono(next, count + 1, p, p);
    assert (count + 1) * p == count * p + p;
  }

  // ---------------------------------------------------------------- how low a step can land

  /** 2 * S * ExactStep > (3S - w) * x - 5S: what the two roundings cost. */
  lemma StepLower(count: u32, x: u32)
    requires count > 0 && Steppable(count, x)
    ensures var w := count * ((x * x) / S);
            2 * S * ExactStep(count, x) > (3 * S - w) * x - 5 * S
  {
    NoUnderflow(count, x);
    RoundedDown(3 * S - count * ((x * x) / S), x);
  }

  lemma RoundedDown(g: int, x: int)
    requires 0 < g && 0 <= x < S
    ensures 2 * S * ((g / 4) * x / 0x8000_0000) > g * x - 5 * S
  {
    var v := g / 4;
    assert 4 * v >= g - 3;
    MulMono(0, 4 * v - (g - 3), 0, x);
    assert (4 * v - (g - 3)) * x == 4 * (v * x) - (g * x - 3 * x);
    var y := v * x;
    assert (y / 0x8000_0000) * 0x8000_0000 > y - 0x8000_0000;
  }

  /** count * x never exceeds 2^17 * S. */
  lemma ProductFits(count: u32, x: u32)
    requires Steppable(count, x)
    ensures count * x <= 0x2_0000 * S
  {
    var p := count * x;
    if p > 0x2_0000 * S {
      SquareBound(0x2_0000 * S, p);
      SquareOfProduct(count, x);
      Reassociate(count, count, x * x);
      MulMono(count, S, count * (x * x), 3 * (S * S));
    }
  }

  /** The squares again, from below: 4 S count r^2 >= w (3S - w)^2 less a thousandth of S^3. */
  lemma StepSquaresLower(count: u32, x: u32)
    requires count > 0 && Steppable(count, x)
    ensures var w, r := count * ((x * x) / S), ExactStep(count, x);
            && 0 <= w && w * S <= count * (x * x)
            && 4 * S * (count * (r * r)) >= w * ((3 * S - w) * (3 * S - w)) - S * S * S / 1000
  {
    var i := (x * x) / S;
    var w, r := count * i, ExactStep(count, x);
    var g := 3 * S - w;
    NoUnderflow(count, x);
    StepUpper(count, x);
    StepLower(count, x);
    ProductFits(count, x);
    MulMono(count, count, i * S, x * x);
    Reassociate(count, i, S);
    hide ExactStep, Steppable;
    LowerSquares(count, x, r, g, w);
  }

  lemma LowerSquares(count: int, x: int, r: int, g: int, w: int)
    requires 0 < count < S && 0 <= x < S && 0 <= r && 0 < g <= 3 * S && 0 <= w
    requires 2 * S * r > g * x - 5 * S && w * S <= count * (x * x) && count * x <= 0x2_0000 * S
    ensures 4 * S * (count * (r * r)) >= w * (g * g) - S * S * S / 1000
  {
    SquareDrop(r, g, x);
    ScaledUp(count, r * r, g, x);
    MulMono(w * S, count * (x * x), g * g, g * g);
    ErrorFits(count, g, x);
    assert (w * S) * (g * g) == S * (w * (g * g));
    assert (count * (x * x)) * (g * g) == count * ((g * g) * (x * x));
    assert 4 * S * S * (count * (r * r)) == S * (4 * S * (count * (r * r)));
    Cancelled(4 * S * (count * (r * r)), w * (g * g));
  }

  lemma Cancelled(a: int, b: int)
    requires S * a >= S * b - S * (S * S * S / 1000)
    ensures a >= b - S * S * S / 1000
  {
  }

  /** (2Sr)^2 >= (gx)^2 - 10 S gx. */
  lemma SquareDrop(r: int, g: int, x: int)
    requires 0 <= r && 0 < g && 0 <= x && 2 * S * r > g * x - 5 * S
    ensures (4 * (S * S)) * (r * r) >= (g * g) * (x * x) - 10 * S * (g * x)
  {
    var y := g * x;
    SquareOfProduct(g, x);
    SquareOfProduct(2 * S, r);
    assert y >= 0;
    if y >= 5 * S {
      SquareBound(y - 5 * S, 2 * S * r);
      assert (y - 5 * S) * (y - 5 * S) == y * y - 10 * S * y + 25 * (S * S);
    } else {
      assert y * y <= 10 * S * y by { MulMono(y, 10 * S, y, y); }
      SquareBound(0, 2 * S * r);
    }
  }

  lemma ScaledUp(count: int, rr: int, g: int, x: int)
    requires count > 0 && (4 * (S * S)) * rr >= (g * g) * (x * x) - 10 * S * (g * x)
    ensures 4 * S * S * (count * rr) >= count * ((g * g) * (x * x)) - 10 * S * (g * (count * x))
  {
    var a, b, c := (4 * (S * S)) * rr, (g * g) * (x * x), 10 * S * (g * x);
    assert count * (a - (b - c)) >= 0;
    assert count * a == 4 * S * S * (count * rr);
    assert count * c == 10 * S * (g * (count * x));
  }

  lemma ErrorFits(count: int, g: int, x: int)
    requires 0 <= count && 0 <= x && 0 < g <= 3 * S && count * x <= 0x2_0000 * S
    ensures 10 * S * (g * (count * x)) <= S * (S * S * S / 1000)
  {
    MulMono(0, count, 0, x);
    MulMono(g, 3 * S, count * x, 0x2_0000 * S);
  }

  /** Between two points on either side of its peak at S, w (3S - w)^2 is at least its smaller end. */
  lemma Dome(w: int, a: int, b: int)
    requires 0 <= a <= S <= b <= 3 * S && a <= w <= b
    ensures w * ((3 * S - w) * (3 * S - w)) >= a * ((3 * S - a) * (3 * S - a)) ||
            w * ((3 * S - w) * (3 * S - w)) >= b * ((3 * S - b) * (3 * S - b))
  {
    if w <= S {
      DomeStep(a, w);
    } else {
      DomeStep(w, b);
    }
  }

  /** h(v) - h(u) = (v - u) q, and q has one sign on either side of S. */
  lemma DomeStep(u: int, v: int)
    requires 0 <= u <= v <= 3 * S
    ensures v <= S ==> v * ((3 * S - v) * (3 * S - v)) >= u * ((3 * S - u) * (3 * S - u))
    ensures u >= S ==> v * ((3 * S - v) * (3 * S - v)) <= u * ((3 * S - u) * (3 * S - u))
  {
    var q := v * v + v * u + u * u - 6 * S * (v + u) + 9 * (S * S);
    CubicGap(u, v, 3 * S);
    if v <= S {
      QLeft(S - v, S - u);
      MulMono(0, v - u, 0, q);
    } else if u >= S {
      QRight(v - S, u - S);
      MulMono(0, v - u, 0, -q);
    }
  }

  lemma CubicGap(u: int, v: int, t: int)
    ensures v * ((t - v) * (t - v)) - u * ((t - u) * (t - u)) ==
            (v - u) * (v * v + v * u + u * u - 2 * t * (v + u) + t * t)
  {
    assert (t - v) * (t - v) == t * t - 2 * (t * v) + v * v;
    assert (t - u) * (t - u) == t * t - 2 * (t * u) + u * u;
    assert v * (t * v) == t * (v * v) && u * (t * u) == t * (u * u);
    assert (v - u) * (v * v + v * u + u * u) == v * (v * v) - u * (u * u);
    assert (v - u) * (v + u) == v * v - u * u;
    assert (v - u) * (2 * t * (v + u)) == 2 * t * ((v - u) * (v + u));
  }

  lemma QLeft(a: int, b: int)
    requires 0 <= a && 0 <= b
    ensures var v, u := S - a, S - b;
            v * v + v * u + u * u - 6 * S * (v + u) + 9 * (S * S) >= 0
  {
    MulMono(0, a, 0, a);
    MulMono(0, a, 0, b);
    MulMono(0, b, 0, b);
  }

  lemma QRight(a: int, b: int)
    requires 0 <= a <= 2 * S && 0 <= b <= 2 * S
    ensures var v, u := S + a, S + b;
            v * v + v * u + u * u - 6 * S * (v + u) + 9 * (S * S) <= 0
  {
    MulMono(0, a, 0, 2 * S - a);
    MulMono(0, b, 0, 2 * S - b);
    MulMono(0, a, 0, 2 * S - b);
    MulMono(0, b, 0, 2 * S - a);
  }

  /** A step from a point whose w lies between a and b, in 1024ths of S, lands at or above land. */
  lemma StepLands(count: u32, x: u32, a: nat, b: nat, land: nat)
    requires count > 0 && Steppable(count, x) && a <= 1024 <= b <= 3072
    requires a * 0x40_0000 <= count * ((x * x) / S) <= b * 0x40_0000
    requires a * ((3072 - a) * (3072 - a)) >= land * 0x40_0000 + 1_073_742
    requires b * ((3072 - b) * (3072 - b)) >= land * 0x40_0000 + 1_073_742
    ensures land * (S * S) <= 1024 * (count * (ExactStep(count, x) * ExactStep(count, x)))
  {
    var w := count * ((x * x) / S);
    StepSquaresLower(count, x);
    Dome(w, a * 0x40_0000, b * 0x40_0000);
    hide ExactStep, Steppable;
    InUnits(a);
    InUnits(b);
  }

  lemma InUnits(a: nat)
    requires a <= 3072
    ensures var u := a * 0x40_0000;
            u * ((3 * S - u) * (3 * S - u)) ==
            (a * ((3072 - a) * (3072 - a))) * (0x40_0000 * 0x40_0000 * 0x40_0000)
  {
    var u, k, e := a * 0x40_0000, 0x40_0000, 3072 - a;
    assert 3 * S - u == e * k;
    assert (e * k) * (e * k) == (e * e) * (k * k);
    assert u * ((e * e) * (k * k)) == (a * (e * e)) * (k * k * k);
  }

  /** count * x^2 lies between lo and hi 1024ths of 2^64: x is near 2^32 / sqrt(count). */
  ghost predicate Within(count: int, x: int, lo: nat, hi: nat) {
    lo * (S * S) <= 1024 * (count * (x * x)) <= hi * (S * S)
  }

  /** What that says of w, whose own rounding loses less than a count. */
  lemma WithinW(count: u32, x: u32, lo: nat, hi: nat, m: nat)
    requires count > 0 && Within(count, x, lo, hi) && count <= m * 0x40_0000 && m <= lo
    ensures (lo - m) * 0x40_0000 <= count * ((x * x) / S) <= hi * 0x40_0000
  {
    var i := (x * x) / S;
    FloorBound(count, x * x, i);
    MulMono(count, count, i * S, x * x);
    Reassociate(count, i, S);
    assert (count * i + count) * S == (count * i) * S + count * S;
    var w := count * i;
    assert 1024 * (w * S) <= hi * (S * S) && lo * (S * S) < 1024 * (w * S) + 1024 * (count * S);
    ByS(1024 * w, hi);
    assert lo * S < 1024 * w + 1024 * count by {
      if lo * S >= 1024 * w + 1024 * count { MulMono(1024 * w + 1024 * count, lo * S, S, S); }
    }
  }

  lemma ByS(a: int, hi: nat)
    requires a * S <= hi * (S * S)
    ensures a <= hi * S
  {
  }

  /** The upper end: a step lands no more than its rounding above one. */
  lemma StepPeak(count: u32, x: u32, most: int, hi: nat)
    requires 0 < count <= most && Steppable(count, x) && 2304 * most <= (hi - 1024) * S
    ensures 1024 * (count * (ExactStep(count, x) * ExactStep(count, x))) <= hi * (S * S)
  {
    var w, r := count * ((x * x) / S), ExactStep(count, x);
    var g := 3 * S - w;
    StepSquares(count, x);
    hide ExactStep, Steppable;
    StrictMul(g, 0, g);
    Multiplied(count, r * r, g * g, x * x, w, most);
    WidePeak(w, most);
    MulMono((g * g) * (w + most), 4 * (S * S * S) + 9 * (S * S) * most, S, S);
    MulMono(2304 * most, (hi - 1024) * S, S, S);
  }

  /** (3S - w)^2 * w peaks at w = S. */
  lemma WidePeak(w: int, most: int)
    requires 0 <= w < 3 * S && most > 0
    ensures ((3 * S - w) * (3 * S - w)) * (w + most) <= 4 * (S * S * S) + 9 * (S * S) * most
  {
    var g := 3 * S - w;
    assert 4 * (S * S * S) - g * g * w == ((w - S) * (w - S)) * (4 * S - w);
    assert (w - S) * (w - S) >= 0;
    MulMono(0, (w - S) * (w - S), 0, 4 * S - w);
    SquareBound(g, 3 * S);
    MulMono(g * g, 9 * (S * S), most, most);
    assert (g * g) * (w + most) == g * g * w + (g * g) * most;
  }

  lemma WithinIsSteppable(count: int, x: int, lo: nat, hi: nat)
    requires Within(count, x, lo, hi) && hi < 3072
    ensures Steppable(count, x)
  {
  }

  /** What the cache must provide: entry 0 is all ones and every other entry is within two tenths of a
      percent of 2^64 when squared and counted. */
  ghost predicate CacheOk(cache: seq<u32>) {
    && |cache| == CACHE_SIZE
    && cache[0] == S - 1
    && forall i :: 1 <= i < CACHE_SIZE ==> Within(i, cache[i], 1022, 1025)
  }

  /** Evaluates one step from its two quotients. */
  lemma StepValue(count: u32, x: u32, i: int, r: int)
    requires i * S <= x * x < (i + 1) * S
    requires 0 <= count * i < 3 * S
    requires 0 <= r < S
    requires r * 0x8000_0000 <= ((3 * S - count * i) / 4) * x < (r + 1) * 0x8000_0000
    ensures NewtonStep(count, x) == r
  {
    assert (x * x) / S == i;
    assert ExactStep(count, x) == r;
    StepIsExact(count, x);
  }

  /** The first two entries sit too close to one for the general bound; they are evaluated. */
  lemma FirstEntry()
    ensures NewtonStep(1, S - 1) == S - 1
  {
    StepValue(1, S - 1, S - 2, S - 1);
  }

  lemma SecondEntry1()
    ensures NewtonStep(2, S - 1) == 2147483649
  {
    StepValue(2, S - 1, S - 2, 2147483649);
  }

  lemma SecondEntry2()
    ensures NewtonStep(2, 2147483649) == 2684354560
  {
    StepValue(2, 2147483649, 1073741825, 2684354560);
  }

  lemma SecondEntry3()
    ensures NewtonStep(2, 2684354560) == 2977955840
  {
    StepValue(2, 2684354560, 1677721600, 2977955840);
  }

  lemma SecondEntry4()
    ensures NewtonStep(2, 2977955840) == 3035289760
  {
    StepValue(2, 2977955840, 2064793600, 3035289760);
  }

  /** From the third entry on, four steps from the entry before sharpen the estimate. */
  lemma FourSteps(count: u32, x: u32)
    requires 3 <= count < CACHE_SIZE && Within(count - 1, x, 1022, 1025)
    ensures Within(count, NewtonStep(count, NewtonStep(count, NewtonStep(count, NewtonStep(count, x)))), 1022, 1025)
  {
    hide NewtonStep;
    var p := x * x;
    assert p >= 0;
    MulMono(2, count - 1, p, p);
    assert count * p == (count - 1) * p + p;
    assert Within(count, x, 1022, 1538);
    var x1 := OneStep(count, x, 1022, 1538, 862);
    var x2 := OneStep(count, x1, 862, 1025, 1003);
    var x3 := OneStep(count, x2, 1003, 1025, 1022);
    var x4 := OneStep(count, x3, 1022, 1025, 1022);
  }

  lemma OneStep(count: u32, x: u32, lo: nat, hi: nat, land: nat) returns (y: u32)
    requires 3 <= count < CACHE_SIZE && Within(count, x, lo, hi) && 1 <= lo <= 1025 && 1024 <= hi < 3072
    requires (lo - 1) * ((3073 - lo) * (3073 - lo)) >= land * 0x40_0000 + 1_073_742
    requires hi * ((3072 - hi) * (3072 - hi)) >= land * 0x40_0000 + 1_073_742
    ensures y == NewtonStep(count, x) && Within(count, y, land, 1025)
  {
    WithinIsSteppable(count, x, lo, hi);
    NewtonSafety(count, x);
    WithinW(count, x, lo, hi, 1);
    StepLands(count, x, lo - 1, hi, land);
    StepPeak(count, x, 16, 1025);
    y := NewtonStep(count, x);
  }

  lemma FirstTwoEntries(count: u32)
    requires 1 <= count <= 2
    ensures var x := NewtonStep(count, NewtonStep(count, NewtonStep(count, NewtonStep(count, S - 1))));
            Within(count, x, 1022, 1025) && (count == 1 ==> x == S - 1)
  {
    if count == 1 {
      FirstEntry();
    } else {
      SecondEntry1();
      SecondEntry2();
      SecondEntry3();
      SecondEntry4();
    }
  }

  /** Fill the cache: four Newton steps an entry, each started from the entry before. */
  method CacheInit() returns (cache: array<u32>)
    ensures fresh(cache) && CacheOk(cache[..])
  {
    cache := new u32[CACHE_SIZE](_ => 0);
    var x: u32 := S - 1;
    cache[0] := x;
    var count: u32 := 1;
    while count < CACHE_SIZE
      invariant 1 <= count <= CACHE_SIZE
      invariant cache[0] == S - 1
      invariant count <= 2 ==> x == S - 1
      invariant count >= 2 ==> Within(count - 1, x, 1022, 1025)
      invariant forall i :: 1 <= i < count ==> Within(i, cache[i], 1022, 1025)
    {
      if count <= 2 { FirstTwoEntries(count); } else { FourSteps(count, x); }
      x := NewtonStep(count, x);
      x := NewtonStep(count, x);
      x := NewtonStep(count, x);
      x := NewtonStep(count, x);
      cache[count] := x;
      count := count + 1;
    }
  }

  /** u32 sum, difference and product, wrapping as the C expressions do. */
  function Add32(a: u32, b: u32): u32 { if a + b < S then a + b else a + b - S }

  function Sub32(a: u32, b: u32): u32 { if a >= b then a - b else a - b + S }

  function Mul32(a: u32, b: u32): u32 { Wrap(a * b, S) }

  /** Reading a u32 as an i32. */
  function AsI32(a: u32): int { if a < 0x8000_0000 then a else a - S }

  /** The next drop time: t plus interval / sqrt(count). */
  function Control(t: u32, interval: u32, invsqrt: u32): u32 {
    Add32(t, Wrap((interval * invsqrt) / S, S))
  }

  /** However coarse the squares are at great counts, an estimate is never below 2^32 / sqrt(8 count). */
  ghost predicate Rough(count: int, x: int) { S * S <= 8 * (count * (x * x)) }

  /** A step on the next count keeps it: far below one it climbs by an eighth, and elsewhere it lands
      above an eighth. */
  lemma RoughStep(cache: seq<u32>, count: u32, x: u32, next: u32)
    requires CacheOk(cache) && Reachable(cache, count, x) && next >= CACHE_SIZE
    requires next == count + 1 || next == count - 1 || (next == count && count == S - 1)
    requires Steppable(next, x)
    ensures Rough(next, ExactStep(next, x))
  {
    var w := next * ((x * x) / S);
    if w <= 768 * 0x40_0000 {
      Climbs(count, x, next);
    } else {
      NextW(cache, count, x, next);
      StepLands(next, x, 768, 2579, 128);
    }
  }

  lemma NextW(cache: seq<u32>, count: u32, x: u32, next: u32)
    requires CacheOk(cache) && Reachable(cache, count, x) && next >= CACHE_SIZE && 15 <= count && next <= count + 1
    ensures next * ((x * x) / S) <= 2579 * 0x40_0000
  {
    var p, i := x * x, (x * x) / S;
    assert p >= 0 && i * S <= p;
    if count == 15 { assert Within(15, x, 1022, 1025); }
    MulMono(15 * next, 16 * count, p, p);
    if count >= 16 { MulMono(16 * next, 17 * count, p, p); }
    MulMono(next, next, i * S, p);
    Reassociate(next, i, S);
    assert 1024 * ((next * i) * S) <= 2579 * (S * S);
    ByS(1024 * (next * i), 2579);
  }

  lemma Climbs(count: u32, x: u32, next: u32)
    requires Rough(count, x) && count >= 15 && 17 * next >= 16 * count && next > 0 && Steppable(next, x)
    requires next * ((x * x) / S) <= 768 * 0x40_0000
    ensures Rough(next, ExactStep(next, x))
  {
    var w, r := next * ((x * x) / S), ExactStep(next, x);
    StepUpper(next, x);
    StepLower(next, x);
    hide ExactStep, Steppable;
    NinthMore(3 * S - w, x, r);
    LargeEnough(count, x);
    SquareGrows(x, r);
    Grown(count, x * x, next, r * r);
  }

  lemma NinthMore(g: int, x: int, r: int)
    requires 4 * g >= 9 * S && 0 <= x && 2 * S * r > g * x - 5 * S
    ensures 8 * r >= 9 * x - 19
  {
    MulMono(9 * S, 4 * g, x, x);
    assert 4 * g * x == 4 * (g * x);
    if 8 * r <= 9 * x - 20 { MulMono(8 * r + 20, 9 * x, S, S); }
  }

  lemma SquareGrows(x: int, r: int)
    requires x >= 27 && 8 * r >= 9 * x - 19
    ensures 16 * (r * r) >= 17 * (x * x)
  {
    var y := 9 * x - 19;
    SquareBound(y, 8 * r);
    assert (8 * r) * (8 * r) == 64 * (r * r);
    assert y * y == 81 * (x * x) - 342 * x + 361;
    MulMono(342, 13 * x, x, x);
    assert 13 * x * x == 13 * (x * x);
  }

  lemma Grown(count: int, p: int, next: int, q: int)
    requires 0 < count && 0 < next && 0 <= p && 16 * q >= 17 * p && 17 * next >= 16 * count
    ensures next * q >= count * p
  {
    MulMono(16 * count, 17 * next, q, q);
    MulMono(count, count, 17 * p, 16 * q);
    Reassociate(16, count, q);
  }

  lemma LargeEnough(count: u32, x: u32)
    requires Rough(count, x)
    ensures x >= 27
  {
    if x < 27 {
      SquareBound(x, 26);
      MulMono(count, S, x * x, 676);
    }
  }

  /** The states of (count, invsqrt) the AQM can reach. At counts 0 and 1 the estimate is not
      read before the cache replaces it, so it may be anything: a zeroed flow, say. */
  ghost predicate Reachable(cache: seq<u32>, count: u32, x: u32)
    requires CacheOk(cache)
  {
    || count <= 1
    || (count < CACHE_SIZE && x == cache[count])
    || (count >= CACHE_SIZE && Converged(count, x) && Rough(count, x))
  }

  /** cobalt_invsqrt as a function of the count just set and the estimate left from before. */
  function Invsqrt(cache: seq<u32>, count: u32, x: u32): u32
    requires |cache| == CACHE_SIZE
  {
    if count < CACHE_SIZE then cache[count] else NewtonStep(count, x)
  }

  /** A run moves the count by one, or holds it at the u32 ceiling. From every reachable state
      the estimate that follows is reachable too, and when it comes from a Newton step that step
      neither wraps nor truncates. */
  lemma InvsqrtKeeps(cache: seq<u32>, count: u32, x: u32, next: u32)
    requires CacheOk(cache) && Reachable(cache, count, x)
    requires next == count + 1 || next == count - 1 || (next == count && count == S - 1)
    ensures Reachable(cache, next, Invsqrt(cache, next, x))
    ensures next >= CACHE_SIZE ==> Steppable(next, x) && NewtonStep(next, x) == ExactStep(next, x)
  {
    if next >= CACHE_SIZE {
      if count == 15 {
        var p := x * x;
        assert Within(15, x, 1022, 1025);
        assert 16 * p == 15 * p + p && p >= 0;
      } else {
        NextIsSteppable(count, x, next);
      }
      NewtonSafety(next, x);
      RoughStep(cache, count, x, next);
    }
  }

  /** Every estimate the AQM reads after a movement is 2^32 / sqrt(count) up to a factor between sqrt(1/8)
      and sqrt(2.38), and up to two tenths of a percent for a cached count. */
  lemma EstimateIsNear(cache: seq<u32>, count: u32, x: u32)
    requires CacheOk(cache) && count >= 1 && (count < CACHE_SIZE ==> x == cache[count])
    requires Reachable(cache, count, x)
    ensures Within(count, x, 128, 2428) && (count < CACHE_SIZE ==> Within(count, x, 1022, 1025))
  {
    if count < CACHE_SIZE { assert Within(count, cache[count], 1022, 1025); }
  }

  /** Below 2^24 drops, where rounding is small, beyond the cache too: up to one percent. */
  ghost predicate Sharp(cache: seq<u32>, count: u32, x: u32)
    requires CacheOk(cache)
  {
    || count <= 1
    || (count < CACHE_SIZE && x == cache[count])
    || (CACHE_SIZE <= count < 0x100_0000 && Within(count, x, 1016, 1034))
  }

  lemma SharpStep(cache: seq<u32>, count: u32, x: u32, next: u32)
    requires CacheOk(cache) && Sharp(cache, count, x) && next < 0x100_0000
    requires next == count + 1 || next == count - 1
    ensures Sharp(cache, next, Invsqrt(cache, next, x))
  {
    if next >= CACHE_SIZE {
      if count == 15 { assert Within(15, x, 1022, 1025); }
      SharpNext(count, x, next);
      SharpLanding(next, x);
    }
  }

  lemma SharpNext(count: u32, x: u32, next: u32)
    requires count >= 15 && Within(count, x, if count == 15 then 1022 else 1016, if count == 15 then 1025 else 1034)
    requires CACHE_SIZE <= next && (next == count + 1 || next == count - 1)
    ensures Within(next, x, 956, 1099)
  {
    var p := x * x;
    var c, n := count * p, next * p;
    assert p >= 0;
    if next == count + 1 {
      assert n == c + p;
      MulMono(count, count, p, p);
      assert 15 * p <= c by { MulMono(15, count, p, p); }
      if count >= 16 { assert 16 * p <= c by { MulMono(16, count, p, p); } }
    } else {
      assert n == c - p;
      assert 17 * p <= c by { MulMono(17, count, p, p); }
    }
  }

  lemma SharpLanding(next: u32, x: u32)
    requires CACHE_SIZE <= next < 0x100_0000 && Within(next, x, 956, 1099)
    ensures Within(next, NewtonStep(next, x), 1016, 1034)
  {
    WithinIsSteppable(next, x, 956, 1099);
    NewtonSafety(next, x);
    WithinW(next, x, 956, 1099, 4);
    hide NewtonStep, Steppable, ExactStep;
    StepLands(next, x, 952, 1099, 1016);
    StepPeak(next, x, 0x100_0000, 1034);
  }

  /** The count and the estimate after a run of movements. */
  function AfterMoves(cache: seq<u32>, count: u32, x: u32, moves: seq<Move>): (u32, u32)
    requires |cache| == CACHE_SIZE
    decreases |moves|
  {
    if moves == [] then (count, x)
    else if moves[0].Down? && count == 0 then AfterMoves(cache, count, x, moves[1..])
    else
      var next := Moved(count, moves[0]);
      AfterMoves(cache, next, Invsqrt(cache, next, x), moves[1..])
  }

  lemma {:induction false} RunStaysSharp(cache: seq<u32>, count: u32, x: u32, moves: seq<Move>)
    requires CacheOk(cache) && Sharp(cache, count, x) && count + |moves| < 0x100_0000
    ensures var end := AfterMoves(cache, count, x, moves); Sharp(cache, end.0, end.1)
    decreases |moves|
  {
    hide Sharp, Invsqrt;
    if moves != [] {
      var next := Moved(count, moves[0]);
      if moves[0].Down? && count == 0 {
        RunStaysSharp(cache, count, x, moves[1..]);
      } else {
        SharpStep(cache, count, x, next);
        RunStaysSharp(cache, next, Invsqrt(cache, next, x), moves[1..]);
      }
    }
  }

  /** The spacing of drops, interval * x / 2^32 rounded down, is interval / sqrt(count) as closely as the
      estimate is near. */
  lemma Spacing(count: int, x: int, interval: int, d: int, lo: nat, hi: nat)
    requires count >= 1 && x >= 0 && interval >= 0 && d >= 0 && Within(count, x, lo, hi)
    requires d * S <= interval * x < (d + 1) * S
    ensures 1024 * (count * (d * d)) <= hi * (interval * interval)
    ensures lo * (interval * interval) <= 1024 * (count * ((d + 1) * (d + 1)))
  {
    SquareBound(d * S, interval * x);
    MulMono(0, interval, 0, x);
    SquareBound(interval * x, (d + 1) * S);
    SquareOfProduct(d, S);
    SquareOfProduct(d + 1, S);
    SquareOfProduct(interval, x);
    SpacingScaled(count, x * x, interval * interval, d * d, (d + 1) * (d + 1), lo, hi);
  }

  lemma SpacingScaled(count: int, xx: int, ii: int, dd: int, ee: int, lo: nat, hi: nat)
    requires count >= 1 && 0 <= ii && lo * (S * S) <= 1024 * (count * xx) <= hi * (S * S)
    requires dd * (S * S) <= ii * xx <= ee * (S * S)
    ensures 1024 * (count * dd) <= hi * ii && lo * ii <= 1024 * (count * ee)
  {
    Crossed(count, xx, ii, dd, hi, true);
    Crossed(count, xx, ii, ee, lo, false);
  }

  lemma Crossed(count: int, xx: int, ii: int, dd: int, e: nat, above: bool)
    requires count >= 1 && 0 <= ii
    requires above ==> 1024 * (count * xx) <= e * (S * S) && dd * (S * S) <= ii * xx
    requires !above ==> 1024 * (count * xx) >= e * (S * S) && dd * (S * S) >= ii * xx
    ensures above ==> 1024 * (count * dd) <= e * ii
    ensures !above ==> 1024 * (count * dd) >= e * ii
  {
    Reassociate(count, ii, xx);
    Reassociate(count, dd, S * S);
    Reassociate(ii, e, S * S);
    if above {
      MulMono2(count, dd * (S * S), ii * xx);
      MulMono2(ii, 1024 * (count * xx), e * (S * S));
      Apart(1024 * (count * dd), e * ii);
    } else {
      MulMono2(count, ii * xx, dd * (S * S));
      MulMono2(ii, e * (S * S), 1024 * (count * xx));
      Apart(e * ii, 1024 * (count * dd));
    }
  }

  lemma Apart(a: int, b: int)
    requires a * (S * S) <= b * (S * S)
    ensures a <= b
  {
  }

  lemma MulMono2(c: int, a: int, b: int)
    requires 0 <= c && a <= b
    ensures c * a <= c * b
  {
    assert c * (b - a) >= 0;
  }

  /** Where counts differ by more than the estimates' tolerance, the greater one drops faster: between any
      two cached counts, and beyond them when they differ by two percent. */
  lemma SpacingFalls(a: int, x: int, b: int, y: int, lo: nat, hi: nat)
    requires 1 <= a && 1 <= b && 0 <= x && 0 <= y && Within(a, x, lo, hi) && Within(b, y, lo, hi) && hi * a < lo * b
    ensures y < x
  {
    if y >= x {
      SquareBound(x, y);
      MulMono2(a, x * x, y * y);
      MulMono2(b, lo * (S * S), 1024 * (a * (x * x)));
      MulMono2(b, a * (x * x), a * (y * y));
      MulMono2(a, 1024 * (b * (y * y)), hi * (S * S));
      Reassociate(a, b, y * y);
      Reassociate(b, a, y * y);
      Reassociate(b, lo, S * S);
      Reassociate(a, hi, S * S);
      StrictMul(S * S, hi * a, lo * b);
    }
  }

  /** Where the next drop is put, seen from the base it is counted from, modulo 2^32. */
  lemma ControlIs(t: u32, interval: u32, x: u32)
    ensures var d := (Control(t, interval, x) - t) % S; d * S <= interval * x < (d + 1) * S
  {
    var p := interval * x;
    MulMono(interval, S - 1, x, S - 1);
    assert 0 <= p / S < S;
    var d := p / S;
    var u := Control(t, interval, x);
    assert u == t + d || u == t + d - S;
    if u == t + d { ModIs(u - t, d, 0); } else { ModIs(u - t, d, -1); }
  }

  lemma ModIs(a: int, d: int, q: int)
    requires a == q * S + d && 0 <= d < S
    ensures a % S == d
  {
  }

  /** The part of a flow CoDel schedules by. */
  datatype Codel = Codel(count: u32, invsqrt: u32, dropNext: u32)

  predicate Due(c: Codel, now: u32) { c.count != 0 && AsI32(Sub32(now, c.dropNext)) >= 0 }

  function MovedTo(cache: seq<u32>, c: Codel, next: u32, interval: u32): Codel
    requires |cache| == CACHE_SIZE
  {
    var x := Invsqrt(cache, next, c.invsqrt);
    Codel(next, x, Control(c.dropNext, interval, x))
  }

  /** Missed drops are forgotten one by one until the next is in the future or the count is spent. */
  function Relaxed(cache: seq<u32>, c: Codel, now: u32, interval: u32): (r: Codel)
    requires |cache| == CACHE_SIZE
    ensures !Due(r, now) && r.count <= c.count
    decreases c.count
  {
    if Due(c, now) then Relaxed(cache, MovedTo(cache, c, c.count - 1, interval), now, interval) else c
  }

  /** to is one spacing after from, modulo 2^32: interval * invsqrt, a whole number of microseconds, which is
      interval / sqrt(count) within a factor between sqrt(1/8) and sqrt(2.38). */
  ghost predicate Spaced(from: int, to: int, interval: int, count: int, invsqrt: int) {
    var d := (to - from) % S;
    && d * S <= interval * invsqrt < (d + 1) * S
    && (count >= 1 ==>
          && 1024 * (count * (d * d)) <= 2428 * (interval * interval)
          && interval * interval <= 8 * (count * ((d + 1) * (d + 1))))
  }

  /** From one state to the next the count goes down by one and the next drop moves on by one spacing. */
  ghost predicate StepsDown(run: seq<Codel>, interval: u32) {
    forall k :: 0 <= k < |run| - 1 ==>
      && run[k].count > 0 && run[k + 1].count == run[k].count - 1
      && Spaced(run[k].dropNext, run[k + 1].dropNext, interval, run[k + 1].count, run[k + 1].invsqrt)
  }

  lemma FirstSpaced(now: u32, interval: u32, x: u32)
    ensures Spaced(now, Control(now, interval, x), interval, 0, x)
  {
    ControlIs(now, interval, x);
  }

  /** The signed reading of a 32-bit difference. */
  lemma DueIs(now: u32, at: u32)
    ensures AsI32(Sub32(now, at)) >= 0 <==> (now - at) % S < 0x8000_0000
    ensures AsI32(Sub32(now, at)) == 0 <==> now == at
  {
  }

  lemma NoStepYet(interval: u32, c: Codel)
    ensures StepsDown([c], interval)
  {
  }

  lemma StepsDownOne(run: seq<Codel>, interval: u32, c: Codel)
    requires StepsDown(run, interval) && run != []
    requires var last := run[|run| - 1];
             && last.count > 0 && c.count == last.count - 1
             && Spaced(last.dropNext, c.dropNext, interval, c.count, c.invsqrt)
    ensures StepsDown(run + [c], interval)
  {
    hide Spaced;
  }

  predicate OverTarget(sojourn: u32, target: u32, mtuTime: u32, bulkFlows: u32) {
    sojourn > target && sojourn > Mul32(Mul32(mtuTime, bulkFlows), 2) && sojourn > Mul32(mtuTime, 4)
  }

  lemma ProductIs(a: u32, b: u32)
    ensures Mul32(a, b) == a * b % S
  {
    MulMono(0, a, 0, b);
  }

  lemma OverTargetIs(sojourn: u32, target: u32, mtuTime: u32, bulkFlows: u32)
    ensures OverTarget(sojourn, target, mtuTime, bulkFlows) <==>
              sojourn > target && sojourn > mtuTime * bulkFlows % S * 2 % S && sojourn > mtuTime * 4 % S
  {
    hide Mul32;
    ProductIs(mtuTime, bulkFlows);
    ProductIs(Mul32(mtuTime, bulkFlows), 2);
    ProductIs(mtuTime, 4);
  }

  /** A standing queue arms CoDel: a first drop is scheduled, and the count starts at one. */
  function Armed(c: Codel, over: bool, wasDropping: bool, now: u32, interval: u32): Codel {
    if !over then c
    else Codel(if c.count == 0 then 1 else c.count, c.invsqrt, if wasDropping then c.dropNext
        else Control(now, interval, c.invsqrt))
  }

  /** One change of the count: up to the u32 ceiling, or down while it is above zero. */
  datatype Move = Up | Down

  function Moved(count: u32, m: Move): u32 {
    if m.Up? then (if count == S - 1 then count else count + 1) else if count == 0 then 0 else count - 1
  }

  /** Along a run, no Newton step underflows, overflows or truncates, and count times the squared
      estimate stays below 3 * 2^64 whenever it is multiplied out. */
  ghost predicate SafeRun(cache: seq<u32>, count: u32, x: u32, moves: seq<Move>)
    requires |cache| == CACHE_SIZE
    decreases |moves|
  {
    moves == [] ||
    (var next := Moved(count, moves[0]);
     if moves[0].Down? && count == 0 then SafeRun(cache, count, x, moves[1..])
     else
       && (next >= CACHE_SIZE ==> Steppable(next, x) && NewtonStep(next, x) == ExactStep(next, x))
       && SafeRun(cache, next, Invsqrt(cache, next, x), moves[1..]))
  }

  lemma {:induction false} EveryRunIsSafe(cache: seq<u32>, count: u32, x: u32, moves: seq<Move>)
    requires CacheOk(cache) && Reachable(cache, count, x)
    ensures SafeRun(cache, count, x, moves)
    decreases |moves|
  {
    if moves != [] {
      var next := Moved(count, moves[0]);
      if moves[0].Down? && count == 0 {
        EveryRunIsSafe(cache, count, x, moves[1..]);
      } else {
        InvsqrtKeeps(cache, count, x, next);
        EveryRunIsSafe(cache, next, Invsqrt(cache, next, x), moves[1..]);
      }
    }
  }

  /** The AQM part of a flow. */
  class Aqm {
    const cache: seq<u32>
    var count: u32
    var invsqrt: u32
    var dropping: bool
    var dropNext: u32
    var pDrop: u32
    var blueTimer: u32

    ghost predicate Valid()
      reads this
    {
      CacheOk(cache) && Reachable(cache, count, invsqrt)
    }

    /** A flow slot is zeroed memory; the cache is the global one. */
    constructor (cache: seq<u32>)
      requires CacheOk(cache)
      ensures Valid() && this.cache == cache
      ensures count == 0 && invsqrt == 0 && !dropping && dropNext == 0 && pDrop == 0 && blueTimer == 0
    {
      this.cache := cache;
      count, invsqrt, dropping, dropNext, pDrop, blueTimer := 0, 0, false, 0, 0, 0;
    }

    /** Move the count to next and bring the estimate along. */
    method MoveCount(next: u32)
      requires Valid()
      requires next == count + 1 || next == count - 1 || (next == count && count == S - 1)
      modifies this`count, this`invsqrt
      ensures Valid()
      ensures count == next && invsqrt == Invsqrt(cache, next, old(invsqrt))
      ensures next >= CACHE_SIZE ==> invsqrt == ExactStep(next, old(invsqrt))
      ensures next >= 1 ==> Within(next, invsqrt, 128, 2428)
      ensures 1 <= next < CACHE_SIZE ==> Within(next, invsqrt, 1022, 1025)
    {
      InvsqrtKeeps(cache, count, invsqrt, next);
      count := next;
      invsqrt := Invsqrt(cache, count, invsqrt);
      if count >= 1 { EstimateIsNear(cache, count, invsqrt); }
    }

    /** The next drop is put one spacing after the last. */
    method Schedule(interval: u32)
      requires Valid() && (count >= 1 ==> Within(count, invsqrt, 128, 2428))
      modifies `dropNext
      ensures Valid() && dropNext == Control(old(dropNext), interval, invsqrt)
      ensures Spaced(old(dropNext), dropNext, interval, count, invsqrt)
    {
      hide Within;
      ControlIs(dropNext, interval, invsqrt);
      if count >= 1 {
        Spacing(count, invsqrt, interval, (Control(dropNext, interval, invsqrt) - dropNext) % S, 128, 2428);
      }
      hide Control;
      dropNext := Control(dropNext, interval, invsqrt);
    }

    /** A packet was refused: raise BLUE's probability, saturating, at most once per target. */
    method QueueFull(target: u32, pInc: u32, now: u32)
      requires Valid()
      modifies this
      ensures Valid()
      ensures dropping && dropNext == now && invsqrt == old(invsqrt)
      ensures count == if old(count) == 0 then 1 else old(count)
      ensures if AsI32(Sub32(now, old(blueTimer))) > AsI32(target)
              then blueTimer == now &&
                   pDrop == if old(pDrop) + pInc < S then old(pDrop) + pInc else S - 1
              else blueTimer == old(blueTimer) && pDrop == old(pDrop)
    {
      if AsI32(Sub32(now, blueTimer)) > AsI32(target) {
        pDrop := Add32(pDrop, pInc);
        if pDrop < pInc {
          pDrop := S - 1;
        }
        blueTimer := now;
      }
      dropping := true;
      dropNext := now;
      if count == 0 {
        count := 1;
      }
    }

    /** The queue emptied: lower BLUE's probability and step the drop count down once if due. */
    method QueueEmpty(target: u32, pDec: u32, interval: u32, now: u32)
      requires Valid()
      modifies this
      ensures Valid()
      ensures !dropping
      ensures if old(pDrop) != 0 && AsI32(Sub32(now, old(blueTimer))) > AsI32(target)
              then blueTimer == now && pDrop == if old(pDrop) < pDec then 0 else old(pDrop) - pDec
              else blueTimer == old(blueTimer) && pDrop == old(pDrop)
      ensures if old(count) > 0 && AsI32(Sub32(now, old(dropNext))) >= 0
              then count == old(count) - 1 && invsqrt == Invsqrt(cache, count, old(invsqrt))
                  && dropNext == Control(old(dropNext), interval, invsqrt)
              else count == old(count) && invsqrt == old(invsqrt) && dropNext == old(dropNext)
      ensures old(count) > 0 && (now - old(dropNext)) % S < 0x8000_0000 ==>
          count == old(count) - 1 && Spaced(old(dropNext), dropNext, interval, count, invsqrt)
    {
      hide Spaced, Control, Invsqrt, Within;
      DueIs(now, dropNext);
      if pDrop != 0 && AsI32(Sub32(now, blueTimer)) > AsI32(target) {
        if pDrop < pDec {
          pDrop := 0;
        } else {
          pDrop := Sub32(pDrop, pDec);
        }
        blueTimer := now;
      }
      dropping := false;
      if count != 0 && AsI32(Sub32(now, dropNext)) >= 0 {
        MoveCount(count - 1);
        Schedule(interval);
      }
    }

    /** The count steps down, and again for as long as another drop was missed. */
    method Relax(now: u32, interval: u32) returns (schedule: int, ghost run: seq<Codel>)
      requires Valid() && count > 0
      modifies `count, `invsqrt, `dropNext
      ensures Valid() && schedule == AsI32(Sub32(now, dropNext))
      ensures Codel(count, invsqrt, dropNext)
           == Relaxed(cache, MovedTo(cache, Codel(old(count), old(invsqrt), old(dropNext)), old(count) - 1, interval),
               now, interval)
      // Step by step, as long as another drop was missed.
      ensures |run| >= 2 && StepsDown(run, interval) && run[0] == Codel(old(count), old(invsqrt), old(dropNext))
      ensures run[|run| - 1] == Codel(count, invsqrt, dropNext)
      ensures forall k :: 1 <= k < |run| - 1 ==> (now - run[k].dropNext) % S < 0x8000_0000
      ensures count == 0 || (now - dropNext) % S >= 0x8000_0000
    {
      hide Invsqrt, Control, StepsDown, Spaced, Within, AsI32, Sub32;
      NoStepYet(interval, Codel(count, invsqrt, dropNext));
      run := [Codel(count, invsqrt, dropNext)];
      ghost var goal := Relaxed(cache, MovedTo(cache, Codel(count, invsqrt, dropNext), count - 1, interval), now,
          interval);
      var nextDue := true;
      schedule := 0;
      while nextDue
        invariant Valid() && (nextDue ==> count > 0)
        invariant !nextDue ==> schedule == AsI32(Sub32(now, dropNext))
        invariant goal == if nextDue then Relaxed(cache, MovedTo(cache, Codel(count, invsqrt, dropNext), count - 1,
            interval), now, interval)
                          else Codel(count, invsqrt, dropNext)
        invariant |run| >= 1 && StepsDown(run, interval) && run[|run| - 1] == Codel(count, invsqrt, dropNext)
        invariant run[0] == Codel(old(count), old(invsqrt), old(dropNext)) && (|run| == 1 ==> nextDue)
        invariant forall k :: 1 <= k < |run| - 1 ==> (now - run[k].dropNext) % S < 0x8000_0000
        invariant |run| > 1 ==> (nextDue <==> count != 0 && (now - dropNext) % S < 0x8000_0000)
        decreases count, nextDue
      {
        MoveCount(count - 1);
        Schedule(interval);
        StepsDownOne(run, interval, Codel(count, invsqrt, dropNext));
        run := run + [Codel(count, invsqrt, dropNext)];
        DueIs(now, dropNext);
        schedule := AsI32(Sub32(now, dropNext));
        nextDue := count != 0 && schedule >= 0;
      }
    }

    /** A queue over target is standing: if it was not before, its first drop is put one spacing from now. */
    method Arm(over: bool, now: u32, interval: u32)
      requires Valid()
      modifies `dropping, `dropNext, `count
      ensures Valid() && dropping == over
      ensures Codel(count, invsqrt, dropNext)
           == Armed(Codel(old(count), invsqrt, old(dropNext)), over, old(dropping), now, interval)
      ensures count == if over && old(count) == 0 then 1 else old(count)
      ensures if over && !old(dropping) then Spaced(now, dropNext, interval, 0, invsqrt)
              else dropNext == old(dropNext)
    {
      hide Spaced;
      if over {
        if !dropping {
          dropping := true;
          FirstSpaced(now, interval, invsqrt);
          dropNext := Control(now, interval, invsqrt);
        }
        if count == 0 {
          count := 1;
        }
      } else if dropping {
        dropping := false;
      }
    }

    /** A drop that is due raises the count, held at the ceiling, and puts the next one spacing on. */
    method Act(interval: u32)
      requires Valid() && count >= 1
      modifies `count, `invsqrt, `dropNext
      ensures Valid() && count == if old(count) == S - 1 then S - 1 else old(count) + 1
      ensures Codel(count, invsqrt, dropNext)
           == MovedTo(cache, Codel(old(count), old(invsqrt), old(dropNext)), count, interval)
      ensures Spaced(old(dropNext), dropNext, interval, count, invsqrt)
    {
      hide Spaced, Within, Control, Invsqrt;
      // count++ and back by one if it wrapped to zero
      var next: u32 := Add32(count, 1);
      if next == 0 {
        next := Sub32(next, 1);
      }
      MoveCount(next);
      Schedule(interval);
    }

    /** Decide the head packet's fate. rnd is the random word drawn when BLUE is consulted. */
    method ShouldDrop(sojourn: u32, now: u32, bulkFlows: u32, ecnCapable: bool,
                      target: u32, interval: u32, mtuTime: u32, rnd: u32)
      returns (drop: bool, ecnMarked: bool, ghost base: u32, ghost run: seq<Codel>)
      requires Valid()
      modifies this
      ensures Valid()
      ensures pDrop == old(pDrop) && blueTimer == old(blueTimer)
      ensures var over := OverTarget(sojourn, target, mtuTime, bulkFlows);
              var was := Codel(old(count), old(invsqrt), old(dropNext));
              var armed := Armed(was, over, old(dropping), now, interval);
              var acts := over && Due(was, now);
              var after := if acts then MovedTo(cache, armed, if armed.count == S - 1 then armed.count
                  else armed.count + 1, interval)
                           else if Due(was, now) then Relaxed(cache, MovedTo(cache, armed, armed.count - 1, interval),
                               now, interval)
                           else armed;
              && dropping == over && count == after.count && invsqrt == after.invsqrt
              && drop == ((acts && !ecnCapable) || (pDrop != 0 && rnd < pDrop)) && ecnMarked == (acts && ecnCapable)
              && var lag := AsI32(Sub32(now, if Due(was, now) && !acts then after.dropNext else was.dropNext));
                 dropNext == if count == 0 then Add32(now, interval) else if lag > 0
                     && !drop then now else after.dropNext
      // Over target, in the arithmetic of the registers.
      ensures dropping <==>
                sojourn > target && sojourn > mtuTime * bulkFlows % S * 2 % S && sojourn > mtuTime * 4 % S
      // The base: a queue that begins to stand has its first drop one spacing from now.
      ensures dropping && !old(dropping) ==>
                Spaced(now, base, interval, 0, old(invsqrt))
      ensures !dropping || old(dropping) ==> base == old(dropNext)
      // A drop that is due raises the count, and the next is one spacing of the new count after the base,
      // or now if this one was late and only marked.
      ensures dropping && old(count) > 0 && (now - old(dropNext)) % S < 0x8000_0000 ==>
                && count == (if old(count) == S - 1 then S - 1 else old(count) + 1)
                && (if drop || now == old(dropNext) then Spaced(base, dropNext, interval, count, invsqrt)
                    else dropNext == now)
      // A drop or a mark needs a drop that is due and a queue over target, or BLUE's draw.
      ensures drop <==>
                || (dropping && old(count) > 0 && (now - old(dropNext)) % S < 0x8000_0000 && !ecnCapable)
                || (pDrop != 0 && rnd < pDrop)
      ensures ecnMarked <==> dropping && old(count) > 0 && (now - old(dropNext)) % S < 0x8000_0000 && ecnCapable
      // Nothing due: the count stands, and a next drop already past is moved up to now.
      ensures !(old(count) > 0 && (now - old(dropNext)) % S < 0x8000_0000) ==>
                && count == (if dropping && old(count) == 0 then 1 else old(count)) && invsqrt == old(invsqrt)
                && dropNext == (if count == 0 then (now + interval) % S
                                else if 0 < (now - old(dropNext)) % S < 0x8000_0000 && !drop then now
                                else base)
      // One that is due below target is given up, and so are the others that were missed, step by step.
      ensures !dropping && old(count) > 0 && (now - old(dropNext)) % S < 0x8000_0000 ==>
                && |run| >= 2 && StepsDown(run, interval)
                && run[0] == Codel(old(count), old(invsqrt), old(dropNext))
                && (forall k :: 0 <= k < |run| - 1 ==> (now - run[k].dropNext) % S < 0x8000_0000)
                && run[|run| - 1].count == count && run[|run| - 1].invsqrt == invsqrt
                && (if count == 0 then dropNext == (now + interval) % S
                    else dropNext == run[|run| - 1].dropNext && (now - dropNext) % S >= 0x8000_0000)
    {
      OverTargetIs(sojourn, target, mtuTime, bulkFlows);
      DueIs(now, dropNext);
      hide Relaxed, Invsqrt, Control, OverTarget, StepsDown, Spaced, Within, AsI32, Sub32, MovedTo;
      drop, ecnMarked := false, false;
      run := [];
      var overTarget := OverTarget(sojourn, target, mtuTime, bulkFlows);
      var schedule := AsI32(Sub32(now, dropNext));
      var nextDue := count != 0 && schedule >= 0;

      Arm(overTarget, now, interval);
      base := dropNext;

      if nextDue && dropping {
        drop := true;
        if ecnCapable {
          ecnMarked := true;
          drop := false;
        }
        Act(interval);
      } else {
        if nextDue { schedule, run := Relax(now, interval); }
      }

      if pDrop != 0 && rnd < pDrop {
        drop := true;
      }

      if count == 0 {
        dropNext := Add32(now, interval);
      } else if schedule > 0 && !drop {
        dropNext := now;
      }
    }
  }
}
