/** The fixed-point exponential moving average: eleven fractional bits, every step rounded down. */
module MovingAverage {

  const ONE := 2048   // 1.0 in fixed point, eleven bits

  /** Weights the average accepts; the decay factor is `exp / 2048`. */
  predicate Weight(exp: int) { 0 <= exp < ONE }

  /** One update, before the final shift. */
  function Weighted(load: int, exp: int, n: int): int { load * exp + n * ONE * (ONE - exp) }

  function Updated(load: int, exp: int, n: int): int { Weighted(load, exp, n) / ONE }

  /** The average after a run of inputs. */
  function Average(start: int, exp: int, inputs: seq<int>): int {
    if inputs == [] then start
    else Updated(Average(start, exp, inputs[..|inputs| - 1]), exp, inputs[|inputs| - 1])
  }

  /** The source's four statements on the caller's variable: the exact mean of the old average and the input
      with weights `exp` and `2048 - exp`, rounded down; it lies between the two. */
  method UpdateExpMovingAverage(load: int, exp: int, n: int) returns (result: int)
    ensures result == Updated(load, exp, n)
    ensures result as real <= ExactUpdated(load as real, exp, n) < (result + 1) as real
    ensures Weight(exp) && load <= n * ONE ==> load <= result <= n * ONE
    ensures Weight(exp) && load >= n * ONE ==> n * ONE <= result <= load
  {
    var shifted := n * ONE;
    result := load * exp;
    result := result + shifted * (ONE - exp);
    result := result / ONE;
    UpdateIsMean(load, exp, n);
    if Weight(exp) {
      UpdateIsBetween(load, exp, n);
    }
  }

  /** One update is the exact one rounded down. */
  lemma UpdateIsMean(load: int, exp: int, n: int)
    ensures Updated(load, exp, n) as real <= ExactUpdated(load as real, exp, n) < (Updated(load, exp, n) + 1) as real
  {
    var p, q := load * exp, n * ONE * (ONE - exp);
    assert load as real * exp as real == p as real;
    RoundingError(p + q);
  }

  lemma UpdateIsBetween(load: int, exp: int, n: int)
    requires Weight(exp)
    ensures load <= n * ONE ==> load <= Updated(load, exp, n) <= n * ONE
    ensures load >= n * ONE ==> n * ONE <= Updated(load, exp, n) <= load
  {
    GapStep(load, exp, n);
    if load > n * ONE {
      GapAbove(load - n * ONE, exp);
    } else {
      NextGapShrinks(n * ONE - load, exp);
    }
  }

  // ---------- Drift ----------

  /** The same update without rounding. */
  ghost function ExactUpdated(x: real, exp: int, n: int): real {
    (x * exp as real + (n * ONE * (ONE - exp)) as real) / 2048.0
  }

  ghost function Exact(start: int, exp: int, inputs: seq<int>): real {
    if inputs == [] then start as real
    else ExactUpdated(Exact(start, exp, inputs[..|inputs| - 1]), exp, inputs[|inputs| - 1])
  }

  lemma ScaleUp(a: real, b: real, c: real)
    requires a <= b && 0.0 <= c
    ensures a * c <= b * c
  {
  }

  lemma Cancel(a: real, b: real, c: real, p: real, q: real)
    requires p == a * c && q == b * c && p < q && 0.0 < c
    ensures a < b
  {
    if b <= a { ScaleUp(b, a, c); }
  }

  lemma Quotient(d: real) returns (q: real)
    requires 0.0 < d
    ensures q == 2048.0 / d && q * d == 2048.0
  {
    q := 2048.0 / d;
  }

  lemma RoundingError(x: int)
    ensures 0.0 <= x as real / 2048.0 - (x / ONE) as real < 1.0
  {
    var q, r := x / ONE, x % ONE;
    assert x == q * ONE + r;
    assert x as real == q as real * 2048.0 + r as real;
  }

  /** The error `e` is non-negative and `e * d < 2048`, where `d` is `2048 - exp`. */
  ghost predicate Small(e: real, d: real) { 0.0 <= e && e * d < 2048.0 }

  ghost function NextError(e: real, x: real, f: real): real { e * x / 2048.0 + f }

  /** Shrinking the error by `x / 2048` and adding less than one. */
  lemma NextErrorBound(e: real, x: real, d: real, f: real)
    requires 0.0 <= x && 0.0 < d && Small(e, d) && 0.0 <= f < 1.0
    ensures 0.0 <= NextError(e, x, f) && NextError(e, x, f) * d < x + d
  {
    var g := e * x / 2048.0;
    ScaleUp(0.0, e, x);
    ShrunkError(e, x, d, g);
    assert f * d < d;
    ErrorSum(NextError(e, x, f) * d, g * d, f * d, x, d) by {
      assert NextError(e, x, f) * d == g * d + f * d;
    }
  }

  lemma ShrunkError(e: real, x: real, d: real, g: real)
    requires 0.0 <= x && e * d < 2048.0 && g == e * x / 2048.0
    ensures g * d <= x
  {
    ScaleUp(e * d, 2048.0, x);
    assert g * d == (e * d) * x / 2048.0;
  }

  lemma ErrorSum(next: real, g: real, f: real, x: real, d: real)
    requires next == g + f && g <= x && f < d
    ensures next < x + d
  {
  }

  /** One rounded update against one exact update. */
  lemma ErrorSplits(a: int, x: real, exp: int, n: int)
    ensures var w := Weighted(a, exp, n);
            ExactUpdated(x, exp, n) - Updated(a, exp, n) as real
            == NextError(x - a as real, exp as real, w as real / 2048.0 - (w / ONE) as real)
  {
    assert (a * exp) as real == a as real * exp as real;
  }

  lemma UpdateKeepsErrorSmall(a: int, x: real, exp: int, n: int, d: real)
    requires Weight(exp) && d == (ONE - exp) as real && Small(x - a as real, d)
    ensures Small(ExactUpdated(x, exp, n) - Updated(a, exp, n) as real, d)
  {
    var w := Weighted(a, exp, n);
    RoundingError(w);
    NextErrorBound(x - a as real, exp as real, d, w as real / 2048.0 - (w / ONE) as real);
    ErrorSplits(a, x, exp, n);
  }

  lemma {:induction false} ErrorStaysSmall(start: int, exp: int, inputs: seq<int>, d: real)
    requires Weight(exp) && d == (ONE - exp) as real
    ensures Small(Exact(start, exp, inputs) - Average(start, exp, inputs) as real, d)
  {
    if inputs != [] {
      var before := inputs[..|inputs| - 1];
      ErrorStaysSmall(start, exp, before, d);
      UpdateKeepsErrorSmall(Average(start, exp, before), Exact(start, exp, before), exp, inputs[|inputs| - 1], d);
    }
  }

  lemma SmallMeans(e: real, d: real)
    requires 0.0 < d && Small(e, d)
    ensures 0.0 <= e < 2048.0 / d
  {
    var bound := Quotient(d);
    Cancel(e, bound, d, e * d, 2048.0);
  }

  /** However long the run, the rounded average never exceeds the exact one and trails it by less than
      `2048 / (2048 - exp)` fixed-point units. */
  lemma DriftIsBounded(start: int, exp: int, inputs: seq<int>)
    requires Weight(exp)
    ensures 0.0 <= Exact(start, exp, inputs) - Average(start, exp, inputs) as real < 2048.0 / (ONE - exp) as real
  {
    var e := Exact(start, exp, inputs) - Average(start, exp, inputs) as real;
    ErrorStaysSmall(start, exp, inputs, (ONE - exp) as real);
    SmallMeans(e, (ONE - exp) as real);
  }

  // ---------- Range and overflow ----------

  lemma Products(a: int, b: int)
    requires 0 <= a && 0 <= b
    ensures 0 <= a * b
  {
  }

  /** The weighted sum, measured from any level `c`. */
  lemma WeightedFrom(load: int, exp: int, n: int, c: int)
    ensures Weighted(load, exp, n) == c * ONE * ONE + (load - c * ONE) * exp + (n - c) * ONE * (ONE - exp)
  {
  }

  lemma WeightedInRange(load: int, exp: int, n: int, lo: int, hi: int)
    requires Weight(exp) && lo * ONE <= load <= hi * ONE && lo <= n <= hi
    ensures lo * ONE * ONE <= Weighted(load, exp, n) <= hi * ONE * ONE
  {
    WeightedFrom(load, exp, n, lo);
    WeightedFrom(load, exp, n, hi);
    Products(load - lo * ONE, exp);
    Products((n - lo) * ONE, ONE - exp);
    Products(hi * ONE - load, exp);
    Products((hi - n) * ONE, ONE - exp);
  }

  /** If all inputs lie in a range, so does the average, however long the run. */
  lemma {:induction false} AverageInRange(start: int, exp: int, inputs: seq<int>, lo: int, hi: int)
    requires Weight(exp) && lo * ONE <= start <= hi * ONE
    requires forall i :: 0 <= i < |inputs| ==> lo <= inputs[i] <= hi
    ensures lo * ONE <= Average(start, exp, inputs) <= hi * ONE
  {
    if inputs != [] {
      var before := inputs[..|inputs| - 1];
      AverageInRange(start, exp, before, lo, hi);
      WeightedInRange(Average(start, exp, before), exp, inputs[|inputs| - 1], lo, hi);
    }
  }

  /** A signed integer type that holds `-limit` to `limit - 1`. */
  predicate Fits(limit: int, x: int) { -limit <= x < limit }

  /** No statement of an update leaves the type. */
  predicate UpdateFits(limit: int, load: int, exp: int, n: int) {
    && Fits(limit, n * ONE)
    && Fits(limit, load * exp)
    && Fits(limit, n * ONE * (ONE - exp))
    && Fits(limit, Weighted(load, exp, n))
  }

  /** Fits even when scaled twice. */
  predicate Safe(limit: int, n: int) { Fits(limit, n * ONE * ONE) }

  /** Scaling by at most one keeps a value between zero and itself. */
  lemma ScaledFits(limit: int, y: int, k: int)
    requires limit > 0 && 0 <= k <= ONE && Fits(limit, y * ONE)
    ensures Fits(limit, y * k)
  {
    if y >= 0 {
      Products(y, k);
      Products(y, ONE - k);
      assert y * (ONE - k) == y * ONE - y * k;
    } else {
      Products(-y, k);
      Products(-y, ONE - k);
      assert -y * (ONE - k) == y * k - y * ONE;
      assert -y * k == -(y * k);
    }
  }

  lemma UpdateInRangeFits(limit: int, load: int, exp: int, n: int, lo: int, hi: int)
    requires limit > 0 && Weight(exp) && Safe(limit, lo) && Safe(limit, hi)
    requires lo * ONE <= load <= hi * ONE && lo <= n <= hi
    ensures UpdateFits(limit, load, exp, n)
  {
    ScaledFits(limit, load, exp);
    ScaledFits(limit, n * ONE, ONE - exp);
    WeightedInRange(load, exp, n, lo, hi);
  }

  /** No update of a run overflows. */
  ghost predicate RunFits(limit: int, start: int, exp: int, inputs: seq<int>) {
    forall k :: 0 <= k < |inputs| ==> UpdateFits(limit, Average(start, exp, inputs[..k]), exp, inputs[k])
  }

  /** The same for a gauge, whose first value becomes the average unrounded. */
  ghost predicate GaugeFits(limit: int, exp: int, inputs: seq<int>) {
    inputs != [] ==> Fits(limit, inputs[0] * ONE) && RunFits(limit, inputs[0] * ONE, exp, inputs[1..])
  }

  ghost predicate InRange(inputs: seq<int>, lo: int, hi: int) {
    forall i :: 0 <= i < |inputs| ==> lo <= inputs[i] <= hi
  }

  lemma SafeRangeFits(limit: int, exp: int, lo: int, hi: int, inputs: seq<int>)
    requires limit > 0 && Weight(exp) && Safe(limit, lo) && Safe(limit, hi) && InRange(inputs, lo, hi)
    ensures GaugeFits(limit, exp, inputs)
  {
    if inputs != [] {
      var start, rest := inputs[0] * ONE, inputs[1..];
      forall k | 0 <= k < |rest| ensures UpdateFits(limit, Average(start, exp, rest[..k]), exp, rest[k]) {
        assert rest[k] == inputs[k + 1];
        assert forall i :: 0 <= i < k ==> rest[..k][i] == inputs[i + 1];
        AverageInRange(start, exp, rest[..k], lo, hi);
        UpdateInRangeFits(limit, Average(start, exp, rest[..k]), exp, rest[k], lo, hi);
      }
    }
  }

  /** Two equal inputs already need the whole width. */
  lemma TwiceNeedsSafe(limit: int, exp: int, c: int)
    requires Weight(exp) && GaugeFits(limit, exp, [c, c])
    ensures Safe(limit, c)
  {
    var rest := [c, c][1..];
    assert rest[..0] == [];
    assert UpdateFits(limit, Average(c * ONE, exp, rest[..0]), exp, rest[0]);
    WeightedFrom(c * ONE, exp, c, c);
  }

  /** Gauges fed from a range never overflow if and only if both ends of the range are safe. */
  lemma NoOverflowIff(limit: int, exp: int, lo: int, hi: int)
    requires limit > 0 && Weight(exp) && lo <= hi
    ensures (forall inputs :: InRange(inputs, lo, hi) ==> GaugeFits(limit, exp, inputs))
            <==> Safe(limit, lo) && Safe(limit, hi)
  {
    if Safe(limit, lo) && Safe(limit, hi) {
      forall inputs | InRange(inputs, lo, hi) ensures GaugeFits(limit, exp, inputs) {
        SafeRangeFits(limit, exp, lo, hi, inputs);
      }
    } else if forall inputs :: InRange(inputs, lo, hi) ==> GaugeFits(limit, exp, inputs) {
      assert InRange([lo, lo], lo, hi) && InRange([hi, hi], lo, hi);
      TwiceNeedsSafe(limit, exp, lo);
      TwiceNeedsSafe(limit, exp, hi);
    }
  }

  /** What that means for the two instantiations. */
  lemma SafeValues(n: int)
    ensures Safe(0x8000_0000_0000_0000, n) <==> -0x200_0000_0000 <= n < 0x200_0000_0000
    ensures Safe(0x8000_0000, n) <==> -0x200 <= n < 0x200
  {
  }

  // ---------- Constant input ----------

  /** The distance from the input is scaled by `exp / 2048` and rounded down. */
  lemma GapStep(load: int, exp: int, c: int)
    ensures Updated(load, exp, c) - c * ONE == ((load - c * ONE) * exp) / ONE
  {
    WeightedFrom(load, exp, c, c);
  }

  /** From above the gap shrinks by at least one and stays non-negative. */
  lemma GapAbove(d: int, exp: int)
    requires Weight(exp) && d > 0
    ensures 0 <= (d * exp) / ONE < d
  {
    Products(d, exp);
    Products(d, ONE - 1 - exp);
    assert d * (ONE - 1 - exp) == d * (ONE - 1) - d * exp;
  }

  lemma GapShrinks(d: int, exp: int)
    requires Weight(exp) && d >= 0
    ensures 0 <= (d * exp) / ONE <= Max(0, d - 1)
  {
    if d > 0 {
      GapAbove(d, exp);
    }
  }

  /** The gap from below after one update. */
  function NextGap(g: int, exp: int): int { -((-g * exp) / ONE) }

  lemma NextGapShrinks(g: int, exp: int)
    requires Weight(exp) && g >= 0
    ensures 0 <= NextGap(g, exp) <= g
    ensures NextGap(g, exp) == g <==> g * (ONE - exp) < ONE
  {
    var k := g * (ONE - exp);
    assert -g * exp == k - g * ONE;
    Products(g, exp);
    Products(g, ONE - exp);
  }

  /** From below the gap never grows and never changes sign, and an update leaves it alone exactly when
      `gap * (2048 - exp) < 2048`. */
  lemma GapBelow(load: int, exp: int, c: int)
    requires Weight(exp) && load <= c * ONE
    ensures load <= Updated(load, exp, c) <= c * ONE
    ensures Updated(load, exp, c) == load <==> (c * ONE - load) * (ONE - exp) < ONE
  {
    GapStep(load, exp, c);
    NextGapShrinks(c * ONE - load, exp);
  }

  /** For example the slowest average rests 2047 units, all but one whole, below a constant input. */
  lemma RestsBelow()
    ensures Updated(1, 2047, 1) == 1 && 1 * ONE - 1 == 2047
  {
  }

  lemma GapMonotone(g: int, h: int, exp: int)
    requires Weight(exp) && h <= g
    ensures NextGap(h, exp) <= NextGap(g, exp)
  {
    Products(g - h, exp);
    assert (g - h) * exp == -h * exp - (-g * exp);
  }

  /** The largest gap an update leaves alone. */
  function Stuck(exp: int): int
    requires Weight(exp)
  {
    (ONE - 1) / (ONE - exp)
  }

  lemma StuckIff(g: int, exp: int)
    requires Weight(exp)
    ensures g * (ONE - exp) < ONE <==> g <= Stuck(exp)
  {
    var d := ONE - exp;
    var q, r := (ONE - 1) / d, (ONE - 1) % d;
    DivisionTheorem(ONE - 1, d);
    if g <= q {
      Products(q - g, d);
      assert (q - g) * d == q * d - g * d;
    } else {
      Products(g - q - 1, d);
      assert (g - q - 1) * d == g * d - q * d - d;
    }
  }

  lemma DivisionTheorem(a: int, d: int)
    requires d > 0
    ensures a == (a / d) * d + a % d && 0 <= a % d < d
  {
  }

  function Constant(k: nat, c: int): seq<int> { seq(k, _ => c) }

  lemma ConstantStep(load: int, exp: int, c: int, k: nat)
    ensures Average(load, exp, Constant(k + 1, c)) == Updated(Average(load, exp, Constant(k, c)), exp, c)
  {
    assert Constant(k + 1, c)[..k] == Constant(k, c);
  }

  function Max(a: int, b: int): int { if a < b then b else a }
  function Min(a: int, b: int): int { if a < b then a else b }

  /** Under constant input the average comes down to it, never below, by at least one unit a step: it is
      exact after as many steps as it was units away. */
  lemma {:induction false} SettlesFromAbove(load: int, exp: int, c: int, k: nat)
    requires Weight(exp) && load >= c * ONE
    ensures 0 <= Average(load, exp, Constant(k, c)) - c * ONE <= Max(0, load - c * ONE - k)
  {
    if k > 0 {
      SettlesFromAbove(load, exp, c, k - 1);
      var a := Average(load, exp, Constant(k - 1, c));
      ConstantStep(load, exp, c, k - 1);
      GapStep(a, exp, c);
      GapShrinks(a - c * ONE, exp);
    }
  }

  lemma {:induction false} GapFromBelow(load: int, exp: int, c: int, k: nat)
    requires Weight(exp) && load <= c * ONE
    ensures var g, rest := c * ONE - load, Min(c * ONE - load, Stuck(exp));
            rest <= c * ONE - Average(load, exp, Constant(k, c)) <= Max(rest, g - k)
  {
    StuckIff(c * ONE - load, exp);
    StuckIff(Stuck(exp), exp);
    StuckNonNegative(exp);
    if k > 0 {
      GapFromBelow(load, exp, c, k - 1);
      var a, rest := Average(load, exp, Constant(k - 1, c)), Min(c * ONE - load, Stuck(exp));
      var g := c * ONE - a;
      ConstantStep(load, exp, c, k - 1);
      GapStep(a, exp, c);
      assert c * ONE - Updated(a, exp, c) == NextGap(g, exp);
      NextGapShrinks(rest, exp);
      NextGapShrinks(g, exp);
      GapMonotone(g, rest, exp);
      StuckIff(g, exp);
    }
  }

  lemma StuckNonNegative(exp: int)
    requires Weight(exp)
    ensures 0 <= Stuck(exp)
  {
    StuckIff(0, exp);
  }

  /** From below the average does not always arrive: after as many steps as it was units away it rests
      exactly `min(gap, floor(2047 / (2048 - exp)))` units short. */
  lemma SettlesFromBelow(load: int, exp: int, c: int, k: nat)
    requires Weight(exp) && load <= c * ONE && k >= c * ONE - load
    ensures Average(load, exp, Constant(k, c)) == c * ONE - Min(c * ONE - load, Stuck(exp))
  {
    GapFromBelow(load, exp, c, k);
    StuckNonNegative(exp);
  }
}
