/** The second-order CIC decimator and the DC blocker of sim/sw/guitar_tuner/guitar_tuner.c:
    what they compute, apart from how 32-bit integers compute it. */
module Decimator {

  import opened PowersOfTwo

  /** The input samples, in order, without end. */
  type Stream = nat -> int

  ghost predicate AllInt16(x: Stream) { forall i: nat :: IsInt16(x(i)) }

  // ------------------------------------------------------------ 32-bit wrapping

  /** The 32-bit two's-complement value of a whole number. */
  function Wrap(v: int): (w: int)
    ensures -0x8000_0000 <= w < 0x8000_0000
  {
    (v + 0x8000_0000) % 0x1_0000_0000 - 0x8000_0000
  }

  lemma WrapTurns(v: int, turns: int)
    ensures Wrap(v + turns * 0x1_0000_0000) == Wrap(v)
  {
  }

  lemma WrapSmall(v: int)
    requires -0x8000_0000 <= v < 0x8000_0000
    ensures Wrap(v) == v
  {
  }

  function Turns(v: int): (t: int)
    ensures Wrap(v) == v + t * 0x1_0000_0000
  {
    -((v + 0x8000_0000) / 0x1_0000_0000)
  }

  /** Wrapped operands give the wrapped result. */
  lemma WrapAdds(a: int, b: int)
    ensures Wrap(Wrap(a) + Wrap(b)) == Wrap(a + b)
    ensures Wrap(Wrap(a) + b) == Wrap(a + b)
    ensures Wrap(Wrap(a) - Wrap(b)) == Wrap(a - b)
  {
    hide Wrap, Turns;
    WrapTurns(a + b, Turns(a) + Turns(b));
    WrapTurns(a + b, Turns(a));
    WrapTurns(a - b, Turns(a) - Turns(b));
  }

  // ------------------------------------------------------------ the ideal filter

  /** The tap d samples back: a triangle, the product of two boxes of R ones. */
  function Tap(r: nat, d: int): nat {
    if d < 0 then 0 else if d < r then d + 1 else if d < 2 * r - 1 then 2 * r - 1 - d else 0
  }

  /** The weighted sum of the first k samples, seen when n have arrived. */
  function Weighted(x: Stream, r: nat, n: nat, k: nat): int {
    if k == 0 then 0 else Weighted(x, r, n, k - 1) + Tap(r, n - k) * x(k - 1)
  }

  /** The triangular moving sum over the latest 2R - 1 of n samples. */
  function Triangle(x: Stream, r: nat, n: nat): int { Weighted(x, r, n, n) }

  // ------------------------------------------------------------ the integrators and combs

  /** The exact value of the first integrator after n samples. */
  function Sum1(x: Stream, n: nat): int {
    if n == 0 then 0 else Sum1(x, n - 1) + x(n - 1)
  }

  /** The exact value of the second integrator after n samples. */
  function Sum2(x: Stream, n: nat): int {
    if n == 0 then 0 else Sum2(x, n - 1) + Sum1(x, n)
  }

  /** The second integrator R or 2R samples ago; 0 before the first sample. */
  function Sum2Before(x: Stream, n: int): int { if n <= 0 then 0 else Sum2(x, n) }

  function Comb1(x: Stream, r: nat, n: int): int { Sum2Before(x, n) - Sum2Before(x, n - r) }

  function Comb2(x: Stream, r: nat, n: int): int { Comb1(x, r, n) - Comb1(x, r, n - r) }

  function Positive(v: int): nat { if v < 0 then 0 else v }

  /** The sum of the first k samples, each weighted by its age when n have arrived. */
  function Ramp(x: Stream, n: int, k: nat): int {
    if k == 0 then 0 else Ramp(x, n, k - 1) + Positive(n - (k - 1)) * x(k - 1)
  }

  lemma {:induction false} RampAges(x: Stream, n: nat, k: nat)
    requires k <= n
    ensures Ramp(x, n + 1, k) == Ramp(x, n, k) + Sum1(x, k)
  {
    if k > 0 {
      RampAges(x, n, k - 1);
      assert (n + 1 - (k - 1)) * x(k - 1) == (n - (k - 1)) * x(k - 1) + x(k - 1);
    }
  }

  lemma {:induction false} RampIsSum2(x: Stream, n: nat)
    ensures Ramp(x, n, n) == Sum2(x, n)
  {
    if n > 0 {
      RampIsSum2(x, n - 1);
      RampAges(x, n - 1, n - 1);
    }
  }

  /** Samples that have not arrived weigh nothing. */
  lemma {:induction false} RampBefore(x: Stream, n: int, k: nat)
    requires n <= k
    ensures Ramp(x, n, k) == Sum2Before(x, n)
    decreases k
  {
    if k == 0 {
    } else if n == k {
      RampIsSum2(x, n);
    } else {
      RampBefore(x, n, k - 1);
      assert Positive(n - (k - 1)) == 0;
    }
  }

  lemma TapIsSecondDifference(a: int, r: nat, v: int)
    requires r > 0
    ensures Positive(a) * v - 2 * (Positive(a - r) * v) + Positive(a - 2 * r) * v == Tap(r, a - 1) * v
  {
    var p, q, u := Positive(a), Positive(a - r), Positive(a - 2 * r);
    assert p - 2 * q + u == Tap(r, a - 1);
    hide Tap, Positive;
    assert (p - 2 * q + u) * v == p * v - 2 * (q * v) + u * v;
  }

  lemma {:induction false} SecondDifference(x: Stream, r: nat, n: nat, k: nat)
    requires r > 0
    ensures Ramp(x, n, k) - 2 * Ramp(x, n - r, k) + Ramp(x, n - 2 * r, k) == Weighted(x, r, n, k)
  {
    if k > 0 {
      SecondDifference(x, r, n, k - 1);
      TapIsSecondDifference(n - (k - 1), r, x(k - 1));
      hide Tap, Positive;
      assert n - r - (k - 1) == n - (k - 1) - r && n - 2 * r - (k - 1) == n - (k - 1) - 2 * r;
    }
  }

  /** Two combs over two integrators are the triangular moving sum. */
  lemma CombsAreTriangle(x: Stream, r: nat, n: nat)
    requires r > 0
    ensures Comb2(x, r, n) == Triangle(x, r, n)
  {
    SecondDifference(x, r, n, n);
    RampBefore(x, n, n);
    RampBefore(x, n - r, n);
    RampBefore(x, n - 2 * r, n);
  }

  // ------------------------------------------------------------ gain

  /** The sum of the taps that fall on the first k of n samples. */
  function TapSum(r: nat, n: nat, k: nat): nat {
    if k == 0 then 0 else TapSum(r, n, k - 1) + Tap(r, n - k)
  }

  /** The sum of the first m taps. */
  function FirstTaps(r: nat, m: nat): nat {
    if m == 0 then 0 else FirstTaps(r, m - 1) + Tap(r, m - 1)
  }

  lemma {:induction false} RisingTaps(r: nat, m: nat)
    requires m <= r
    ensures 2 * FirstTaps(r, m) == m * (m + 1)
  {
    if m > 0 {
      RisingTaps(r, m - 1);
      assert (m - 1) * m + 2 * m == m * (m + 1);
    }
  }

  /** The taps are symmetric, so the first m and the first 2R - 1 - m make up the whole gain. */
  lemma {:induction false} TapsMirror(r: nat, m: nat)
    requires 0 < r <= m < 2 * r
    ensures FirstTaps(r, m) + FirstTaps(r, 2 * r - 1 - m) == r * r
  {
    if m == r {
      RisingTaps(r, r);
      RisingTaps(r, r - 1);
      assert r * (r + 1) + (r - 1) * r == 2 * (r * r);
    } else {
      TapsMirror(r, m - 1);
      assert 2 * r - 1 - (m - 1) == (2 * r - 1 - m) + 1;
    }
  }

  lemma {:induction false} FirstTapsLevelOff(r: nat, m: nat)
    requires r > 0
    ensures FirstTaps(r, m) <= r * r
    ensures m >= 2 * r - 1 ==> FirstTaps(r, m) == r * r
    decreases if m < r then r - m else 0, m
  {
    if m < r {
      FirstTapsLevelOff(r, m + 1);
    } else if m < 2 * r {
      TapsMirror(r, m);
    } else {
      FirstTapsLevelOff(r, m - 1);
    }
  }

  lemma {:induction false} TapSumIsFirstTaps(r: nat, n: nat, k: nat)
    requires k <= n
    ensures TapSum(r, n, k) + FirstTaps(r, n - k) == FirstTaps(r, n)
  {
    if k > 0 {
      TapSumIsFirstTaps(r, n, k - 1);
    }
  }

  lemma {:induction false} WeightedBounds(x: Stream, r: nat, n: nat, k: nat, lo: int, hi: int)
    requires forall i: nat :: lo <= x(i) <= hi
    ensures lo * TapSum(r, n, k) <= Weighted(x, r, n, k) <= hi * TapSum(r, n, k)
  {
    if k > 0 {
      WeightedBounds(x, r, n, k - 1, lo, hi);
      assert lo <= x(k - 1) <= hi;
      BoundsStep(TapSum(r, n, k - 1), Tap(r, n - k), lo, x(k - 1));
      BoundsStep(TapSum(r, n, k - 1), Tap(r, n - k), x(k - 1), hi);
    }
  }

  lemma BoundsStep(sum: nat, t: nat, lo: int, hi: int)
    requires lo <= hi
    ensures lo * (sum + t) == lo * sum + lo * t && hi * (sum + t) == hi * sum + hi * t
    ensures lo * t <= t * hi && t * lo <= hi * t
  {
    MulLe(lo, hi, t);
  }

  lemma GainAtMostRSquared(r: nat, n: nat)
    requires r > 0
    ensures TapSum(r, n, n) <= r * r
    ensures n >= 2 * r - 1 ==> TapSum(r, n, n) == r * r
  {
    TapSumIsFirstTaps(r, n, n);
    FirstTapsLevelOff(r, n);
  }

  /** The decimator's output k: the triangular sum at the end of block k, scaled back. */
  function Decimated(x: Stream, r: nat, k: nat): int
    requires r > 0
  {
    Triangle(x, r, (k + 1) * r) / (r * r)
  }

  /** The shift rounds down, and without decimation the filter is the identity. */
  lemma DecimatedRoundsDown(x: Stream, r: nat, k: nat)
    requires r > 0
    ensures var t, d := Triangle(x, r, (k + 1) * r), Decimated(x, r, k); r * r * d <= t < r * r * (d + 1)
    ensures r == 1 ==> Decimated(x, r, k) == x(k)
  {
    var t, g := Triangle(x, r, (k + 1) * r), r * r;
    assert g > 0 && t == t / g * g + t % g;
    assert g * (t / g + 1) == t / g * g + g;
    if r == 1 {
      OnlyLatestTap(x, k + 1, k + 1);
    }
  }

  lemma {:induction false} OnlyLatestTap(x: Stream, n: nat, k: nat)
    requires k <= n
    ensures Weighted(x, 1, n, k) == if k == n && k > 0 then x(k - 1) else 0
  {
    if k > 0 {
      OnlyLatestTap(x, n, k - 1);
    }
  }

  /** The gain R * R is divided out: 16-bit samples stay 16-bit samples. */
  lemma DecimatedFits(x: Stream, r: nat, k: nat)
    requires r > 0 && AllInt16(x)
    ensures IsInt16(Decimated(x, r, k))
    ensures -0x8000 * (r * r) <= Triangle(x, r, (k + 1) * r) <= 0x7FFF * (r * r)
  {
    var n := (k + 1) * r;
    GainAtMostRSquared(r, n);
    WeightedBounds(x, r, n, n, -0x8000, 0x7FFF);
    var t := Triangle(x, r, n);
    var g := r * r;
    assert g > 0;
    assert t == t / g * g + t % g;
    if t / g < -0x8000 {
      MulLe(t / g, -0x8001, g);
    } else if t / g > 0x7FFF {
      MulLe(0x8000, t / g, g);
    }
  }

  /** A constant input comes out unchanged as soon as the taps are full. */
  lemma UnitGain(x: Stream, r: nat, k: nat, c: int)
    requires r > 0 && k >= 1 && forall i: nat :: x(i) == c
    ensures Decimated(x, r, k) == c
  {
    var n := (k + 1) * r;
    assert n >= 2 * r by {
      MulLe(2, k + 1, r);
    }
    GainAtMostRSquared(r, n);
    WeightedBounds(x, r, n, n, c, c);
    DivModUnique(Triangle(x, r, n), r * r, c, 0);
  }

  // ------------------------------------------------------------ the DC blocker

  datatype Blocker = Blocker(x1: int, y: int)
  {
    /** y += (s - x1) - (y >> 8), and the sample becomes the previous one. */
    function Next(s: int): Blocker { Blocker(s, y + (s - x1) - y / 256) }

    predicate Bounded() { IsInt16(x1) && -32767 <= y - x1 <= 32768 }
  }

  /** The blocker never drifts more than 16 bits away from its input, although the feedback
      rounds down: no 32-bit overflow before the clamp, in any run. */
  lemma BlockerStaysBounded(b: Blocker, s: int)
    requires b.Bounded() && IsInt16(s)
    ensures b.Next(s).Bounded() && -65535 <= b.Next(s).y <= 65535
  {
  }

  /** The transfer function y[n] = x[n] - x[n - 1] + (1 - 2^-8) * y[n - 1]: one step meets it to within
      the rounding of the leak, taken from the output before, which is always up. */
  lemma MeetsTransferFunction(b: Blocker, s: int)
    ensures var y := b.Next(s).y;
      && 255 * b.y <= 256 * (y - (s - b.x1)) <= 255 * b.y + 255
      && b.Next(s).x1 == s
  {
  }

  /** What the blocker has let go in the first k steps: the whole 256ths of its earlier outputs. */
  function Leaked(x: Stream, r: nat, k: nat): int
    requires r > 0
  {
    if k == 0 then 0 else Leaked(x, r, k - 1) + FloorOf(BlockerAt(x, r, k - 1).y)
  }

  /** The whole part of y / 256, rounded down. */
  function FloorOf(y: int): (q: int)
    ensures 256 * q <= y < 256 * (q + 1)
  {
    y / 256
  }

  /** Over a run from rest the output is the latest sample less all that has leaked. */
  lemma {:induction false} OutputIsSampleLessLeak(x: Stream, r: nat, k: nat)
    requires r > 0
    ensures var b := BlockerAt(x, r, k);
      b.x1 == (if k == 0 then 0 else Decimated(x, r, k - 1)) && b.y == b.x1 - Leaked(x, r, k)
  {
    if k > 0 {
      OutputIsSampleLessLeak(x, r, k - 1);
    }
  }

  /** A step of height h from rest comes out at its full height. */
  lemma StepComesThrough(x: Stream, r: nat, k: nat, h: int)
    requires r > 0 && Decimated(x, r, k) == h
    requires forall j: nat :: j < k ==> Decimated(x, r, j) == 0
    ensures BlockerAt(x, r, k + 1).y == h && ChainOutput(x, r, k) == Clamp(h)
  {
    StaysAtRest(x, r, k);
  }

  lemma {:induction false} StaysAtRest(x: Stream, r: nat, k: nat)
    requires r > 0 && forall j: nat :: j < k ==> Decimated(x, r, j) == 0
    ensures BlockerAt(x, r, k) == Blocker(0, 0)
  {
    hide Decimated;
    if k > 0 {
      StaysAtRest(x, r, k - 1);
    }
  }

  function Held(b: Blocker, n: nat): Blocker {
    if n == 0 then b else Held(b, n - 1).Next(b.x1)
  }

  /** A constant level is removed down to a residue of 0 to 255, which then stays for ever. */
  lemma {:induction false} ConstantDiesOut(b: Blocker, n: nat)
    ensures Held(b, n).x1 == b.x1
    ensures 0 <= Held(b, n).y <= 255 ==> Held(b, n + 1) == Held(b, n)
    ensures b.y >= 0 ==> 0 <= Held(b, n).y && (Held(b, n).y <= 255 || Held(b, n).y + n <= b.y)
    ensures b.y < 0 ==> Held(b, n).y <= 0 && (Held(b, n).y == 0 || b.y + n <= Held(b, n).y)
  {
    if n > 0 {
      ConstantDiesOut(b, n - 1);
    }
  }

  /** The blocker after k outputs of the decimator. */
  function BlockerAt(x: Stream, r: nat, k: nat): Blocker
    requires r > 0
  {
    if k == 0 then Blocker(0, 0) else BlockerAt(x, r, k - 1).Next(Decimated(x, r, k - 1))
  }

  lemma {:induction false} BlockerAtBounded(x: Stream, r: nat, k: nat)
    requires r > 0 && AllInt16(x)
    ensures BlockerAt(x, r, k).Bounded()
  {
    if k > 0 {
      BlockerAtBounded(x, r, k - 1);
      DecimatedFits(x, r, k - 1);
      BlockerStaysBounded(BlockerAt(x, r, k - 1), Decimated(x, r, k - 1));
    }
  }

  function Clamp(y: int): (s: int)
    ensures y < -32768 ==> s == -32768
    ensures y > 32767 ==> s == 32767
    ensures -32768 <= y <= 32767 ==> s == y
  {
    if y > 32767 then 32767 else if y < -32768 then -32768 else y
  }

  /** Output k of the whole chain; silence before the first. */
  function ChainOutput(x: Stream, r: nat, k: int): int
    requires r > 0
  {
    if k < 0 then 0 else Clamp(BlockerAt(x, r, k + 1).y)
  }
}
