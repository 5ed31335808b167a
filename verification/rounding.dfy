/** `toFixed` of index.js: the two-step rounding of a converted length to
    `precision` fractional digits, over exact reals. */
module Rounding {
  import opened Decimal

  /** 10^n as a real number: `Math.pow(10, n)`. */
  function Scale(n: nat): (r: real)
    ensures r >= 1.0
  {
    Pow10(n) as real
  }

  lemma ScaleStep(n: nat)
    ensures Scale(n + 1) == 10.0 * Scale(n)
  {
  }

  /** `Math.round`: the nearest integer, a tie going up (towards +infinity). */
  function JsRound(x: real): int {
    (x + 0.5).Floor
  }

  lemma JsRoundNearest(x: real)
    ensures JsRound(x) as real - 0.5 <= x < JsRound(x) as real + 0.5
  {
  }

  lemma JsRoundOfInteger(m: int)
    ensures JsRound(m as real) == m
  {
  }

  /** The body of index.js `toFixed` once `multiplier` = 10^(precision + 1)
      is computed: truncate to a whole number of 1/multiplier steps, then
      round that to a whole number of tens. */
  function ToFixedAt(x: real, multiplier: real): real
    requires multiplier > 0.0
  {
    var wholeNumber := (x * multiplier).Floor;
    JsRound(wholeNumber as real / 10.0) as real * 10.0 / multiplier
  }

  /** index.js `toFixed(number, precision)`. */
  function ToFixed(x: real, precision: nat): real {
    ToFixedAt(x, Scale(precision + 1))
  }

  /** The single-step reference rounding at scale p: round x * p half up, scale back. */
  function RoundAt(x: real, p: real): real
    requires p > 0.0
  {
    JsRound(x * p) as real / p
  }

  /** Round x half up to n fractional digits. */
  function RoundHalfUp(x: real, n: nat): real {
    RoundAt(x, Scale(n))
  }

  /** `y` is a whole multiple of 1/p. */
  ghost predicate OnGridAt(y: real, p: real) {
    (y * p).Floor as real == y * p
  }

  /** `y` lies on the grid of multiples of 10^-n. */
  ghost predicate OnGrid(y: real, n: nat) {
    OnGridAt(y, Scale(n))
  }

  /** Truncating first and then rounding one digit shorter is the same as
      rounding the exact value once: floor(floor(y) / 10 + 1/2) == floor(y / 10 + 1/2). */
  lemma TruncateThenRound(y: real)
    ensures JsRound(y.Floor as real / 10.0) == JsRound(y / 10.0)
  {
    var w := y.Floor;
    var k := JsRound(w as real / 10.0);
    JsRoundNearest(w as real / 10.0);
    assert 10 * k - 5 <= w < 10 * k + 5;
    assert w <= 10 * k + 4;
    assert (10 * k - 5) as real <= y < (10 * k + 5) as real;
  }

  // Single facts of real arithmetic, kept apart so that each proof above
  // them only takes linear steps.

  lemma MulTen(x: real, p: real, m: real)
    requires m == 10.0 * p
    ensures x * m == 10.0 * (x * p)
  {
  }

  lemma DivTen(a: real, y: real)
    requires y == 10.0 * a
    ensures y / 10.0 == a
  {
  }

  lemma DivCancelTen(a: real, p: real, m: real)
    requires p > 0.0 && m == 10.0 * p
    ensures a * 10.0 / m == a / p
  {
  }

  lemma MulDiv(x: real, p: real)
    requires p > 0.0
    ensures x * p / p == x
  {
  }

  lemma DivMul(a: real, p: real)
    requires p > 0.0
    ensures a / p * p == a
  {
  }

  lemma DivShift(k: real, p: real)
    requires p > 0.0
    ensures (k - 0.5) / p == k / p - 0.5 / p
    ensures (k + 0.5) / p == k / p + 0.5 / p
  {
  }

  lemma DivMonotone(a: real, b: real, p: real)
    requires p > 0.0
    ensures a <= b ==> a / p <= b / p
    ensures a < b ==> a / p < b / p
  {
  }

  lemma MulMonotone(x: real, y: real, p: real)
    requires x <= y && p > 0.0
    ensures x * p <= y * p
  {
  }

  // Properties at an arbitrary positive scale.

  lemma TwoStepAtScale(x: real, p: real, m: real)
    requires p >= 1.0 && m == 10.0 * p
    ensures ToFixedAt(x, m) == RoundAt(x, p)
  {
    var k := JsRound(x * p);
    var y := x * m;
    MulTen(x, p, m);
    DivTen(x * p, y);
    assert y / 10.0 == x * p;
    TruncateThenRound(y);
    assert JsRound(y.Floor as real / 10.0) == k;
    DivCancelTen(k as real, p, m);
  }

  lemma RoundAtOnGrid(x: real, p: real)
    requires p > 0.0
    ensures OnGridAt(RoundAt(x, p), p)
  {
    var j := JsRound(x * p);
    DivMul(j as real, p);
    assert RoundAt(x, p) * p == j as real;
    assert (j as real).Floor == j;
  }

  lemma RoundAtExact(x: real, p: real)
    requires p > 0.0 && OnGridAt(x, p)
    ensures RoundAt(x, p) == x
  {
    JsRoundOfInteger((x * p).Floor);
    MulDiv(x, p);
  }

  lemma RoundAtMonotone(x: real, y: real, p: real)
    requires x <= y && p > 0.0
    ensures RoundAt(x, p) <= RoundAt(y, p)
  {
    MulMonotone(x, y, p);
    assert JsRound(x * p) <= JsRound(y * p);
    DivMonotone(JsRound(x * p) as real, JsRound(y * p) as real, p);
  }

  lemma RoundAtNearest(x: real, p: real)
    requires p > 0.0
    ensures RoundAt(x, p) - 0.5 / p <= x < RoundAt(x, p) + 0.5 / p
  {
    var k := JsRound(x * p) as real;
    JsRoundNearest(x * p);
    DivMonotone(k - 0.5, x * p, p);
    DivMonotone(x * p, k + 0.5, p);
    DivShift(k, p);
    MulDiv(x, p);
  }

  lemma RoundAtNonNegative(x: real, p: real)
    requires x >= 0.0 && p > 0.0
    ensures RoundAt(x, p) >= 0.0
  {
    MulMonotone(0.0, x, p);
    DivMonotone(0.0, JsRound(x * p) as real, p);
  }

  // Properties of toFixed.

  /** Over exact reals the two-step rounding of index.js is plain half-up
      rounding to `precision` digits. */
  lemma ToFixedIsHalfUp(x: real, precision: nat)
    ensures ToFixed(x, precision) == RoundHalfUp(x, precision)
  {
    ScaleStep(precision);
    TwoStepAtScale(x, Scale(precision), Scale(precision + 1));
  }

  /** The result of `toFixed`, times 10^precision, is an integer. */
  lemma ToFixedOnGrid(x: real, precision: nat)
    ensures OnGrid(ToFixed(x, precision), precision)
  {
    ToFixedIsHalfUp(x, precision);
    RoundAtOnGrid(x, Scale(precision));
  }

  /** `toFixed` is exact on values already on the grid. */
  lemma ToFixedExactOnGrid(x: real, precision: nat)
    requires OnGrid(x, precision)
    ensures ToFixed(x, precision) == x
  {
    ToFixedIsHalfUp(x, precision);
    RoundAtExact(x, Scale(precision));
  }

  lemma ToFixedIdempotent(x: real, precision: nat)
    ensures ToFixed(ToFixed(x, precision), precision) == ToFixed(x, precision)
  {
    ToFixedOnGrid(x, precision);
    ToFixedExactOnGrid(ToFixed(x, precision), precision);
  }

  lemma ToFixedMonotone(x: real, y: real, precision: nat)
    requires x <= y
    ensures ToFixed(x, precision) <= ToFixed(y, precision)
  {
    ToFixedIsHalfUp(x, precision);
    ToFixedIsHalfUp(y, precision);
    RoundAtMonotone(x, y, Scale(precision));
  }

  /** `toFixed` picks the grid point nearest to x, a tie going up: the result
      r satisfies r - h <= x < r + h for the half step h = 1 / (2 * 10^precision). */
  lemma ToFixedNearest(x: real, precision: nat)
    ensures ToFixed(x, precision) - 0.5 / Scale(precision) <= x
    ensures x < ToFixed(x, precision) + 0.5 / Scale(precision)
  {
    ToFixedIsHalfUp(x, precision);
    RoundAtNearest(x, Scale(precision));
  }

  lemma ToFixedNonNegative(x: real, precision: nat)
    requires x >= 0.0
    ensures ToFixed(x, precision) >= 0.0
  {
    ToFixedIsHalfUp(x, precision);
    RoundAtNonNegative(x, Scale(precision));
  }
}
