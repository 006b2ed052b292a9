/** The Q15 arithmetic of the reference FFT: rounding, saturation and twiddle quantisation,
    when saturation cannot act, and how far the result can be from the exact transform. */
module FixedPoint {
  import opened PowersOfTwo
  import opened Rings
  import opened Complexes
  import opened FftSchedule
  import opened Dft

  /** One complex sample; the 16-bit range is the predicate `Fits`. */
  datatype C16 = C16(re: int, im: int)

  predicate Fits(a: C16) { IsInt16(a.re) && IsInt16(a.im) }

  function Sat16(v: int): (r: int)
    ensures IsInt16(r)
    ensures IsInt16(v) ==> r == v
  {
    if v > 32767 then 32767 else if v < -32768 then -32768 else v
  }

  function ScaleRnd(v: int, en: bool): int { if en then (v + 1) / 2 else v }

  function Round15(v: int): int { (v + 16384) / 32768 }

  /** The inverse transform conjugates the table entry; -(-32768) does not fit. */
  function Twist(inverse: bool, w: C16): C16 {
    if !inverse then w
    else C16(w.re, if w.im == -32768 then 32767 else -w.im)
  }

  /** The exact integer product of a difference with a twiddle. */
  function Product(d: C16, w: C16): C16 {
    C16(d.re * w.re - d.im * w.im, d.re * w.im + d.im * w.re)
  }

  function Difference(a: C16, b: C16): C16 { C16(a.re - b.re, a.im - b.im) }

  /** Both outputs of a butterfly before saturation. */
  function RawButterfly(inverse: bool): (bool, C16, C16, C16) -> (C16, C16) {
    (sc: bool, w: C16, a: C16, b: C16) =>
      var m := Product(Difference(a, b), Twist(inverse, w));
      (C16(ScaleRnd(a.re + b.re, sc), ScaleRnd(a.im + b.im, sc)),
       C16(ScaleRnd(Round15(m.re), sc), ScaleRnd(Round15(m.im), sc)))
  }

  function Saturate(a: C16): (r: C16)
    ensures Fits(r) && (Fits(a) <==> r == a)
  {
    C16(Sat16(a.re), Sat16(a.im))
  }

  function Q15Butterfly(inverse: bool): (bool, C16, C16, C16) -> (C16, C16) {
    (sc: bool, w: C16, a: C16, b: C16) =>
      var (oa, ob) := RawButterfly(inverse)(sc, w, a, b);
      (Saturate(oa), Saturate(ob))
  }

  // ------------------------------------------------------------ when a butterfly clips

  /** The window of exact products that survive both roundings without clipping. */
  predicate InWindow(m: int) {
    -65537 * 32768 - 16384 <= m < 65535 * 32768 - 16384
  }

  /** The window where the product is not halved. */
  predicate InNarrowWindow(m: int) {
    -32768 * 32768 - 16384 <= m < 32767 * 32768 + 16384
  }

  predicate ProductSafe(sc: bool, m: C16) {
    if sc then InWindow(m.re) && InWindow(m.im) else InNarrowWindow(m.re) && InNarrowWindow(m.im)
  }

  predicate SumSafe(sc: bool, a: C16, b: C16) {
    sc || (-32768 <= a.re + b.re <= 32767 && -32768 <= a.im + b.im <= 32767)
  }

  /** The sum path clips exactly when it is not halved and a part of the sum is not a 16-bit value,
      and the difference path exactly when a part of the exact product (a - b) * w leaves a fixed
      window. */
  lemma ClipsIffOutsideWindow(inverse: bool, sc: bool, w: C16, a: C16, b: C16)
    requires Fits(a) && Fits(b)
    ensures Q15Butterfly(inverse)(sc, w, a, b).0 == RawButterfly(inverse)(sc, w, a, b).0 <==> SumSafe(sc, a, b)
    ensures Q15Butterfly(inverse)(sc, w, a, b).1 == RawButterfly(inverse)(sc, w, a, b).1
      <==> ProductSafe(sc, Product(Difference(a, b), Twist(inverse, w)))
  {
    var m := Product(Difference(a, b), Twist(inverse, w));
    hide Product, Twist;
    RoundedInRange(sc, m.re);
    RoundedInRange(sc, m.im);
  }

  lemma RoundedInRange(sc: bool, m: int)
    ensures IsInt16(ScaleRnd(Round15(m), sc)) <==> if sc then InWindow(m) else InNarrowWindow(m)
  {
  }

  // ------------------------------------------------------------ what a butterfly computes

  /** v is the whole number nearest to n / d; a tie goes up. */
  predicate RoundsTo(n: int, d: nat, v: int) { 2 * d * v - d <= 2 * n < 2 * d * v + d }

  /** out is the 16-bit value nearest to v. */
  predicate ClipsTo(v: int, out: int) {
    && (v < -32768 ==> out == -32768) && (v > 32767 ==> out == 32767)
    && (-32768 <= v <= 32767 ==> out == v)
  }

  /** A part of the sum path: the sum, halved if the stage scales, and clipped. */
  ghost predicate SumPart(sc: bool, sum: int, out: int) {
    exists v: int :: RoundsTo(sum, if sc then 2 else 1, v) && ClipsTo(v, out)
  }

  /** A part of the difference path: the Q30 product rounded to Q15, halved if the stage scales,
      and clipped. */
  ghost predicate ProductPart(sc: bool, product: int, out: int) {
    exists u: int, v: int :: RoundsTo(product, 32768, u) && RoundsTo(u, if sc then 2 else 1, v) && ClipsTo(v, out)
  }

  /** Both outputs of a butterfly, part by part, from its inputs alone. */
  ghost predicate ButterflyMeets(inverse: bool, sc: bool, w: C16, a: C16, b: C16, oa: C16, ob: C16) {
    var wi := if inverse then (if w.im == -32768 then 32767 else -w.im) else w.im;
    && SumPart(sc, a.re + b.re, oa.re) && SumPart(sc, a.im + b.im, oa.im)
    && ProductPart(sc, (a.re - b.re) * w.re - (a.im - b.im) * wi, ob.re)
    && ProductPart(sc, (a.re - b.re) * wi + (a.im - b.im) * w.re, ob.im)
  }

  lemma ButterflyComputes(inverse: bool, sc: bool, w: C16, a: C16, b: C16)
    ensures var out := Q15Butterfly(inverse)(sc, w, a, b);
      ButterflyMeets(inverse, sc, w, a, b, out.0, out.1)
  {
    var m := Product(Difference(a, b), Twist(inverse, w));
    var raw := RawButterfly(inverse)(sc, w, a, b);
    SumComputes(sc, a.re + b.re);
    SumComputes(sc, a.im + b.im);
    ProductComputes(sc, m.re);
    ProductComputes(sc, m.im);
    hide ScaleRnd, Round15, Sat16;
  }

  lemma SumComputes(sc: bool, sum: int)
    ensures SumPart(sc, sum, Sat16(ScaleRnd(sum, sc)))
  {
    var v := ScaleRnd(sum, sc);
    assert RoundsTo(sum, if sc then 2 else 1, v) && ClipsTo(v, Sat16(v));
  }

  lemma ProductComputes(sc: bool, m: int)
    ensures ProductPart(sc, m, Sat16(ScaleRnd(Round15(m), sc)))
  {
    var u := Round15(m);
    var v := ScaleRnd(u, sc);
    assert RoundsTo(m, 32768, u) && RoundsTo(u, if sc then 2 else 1, v) && ClipsTo(v, Sat16(v));
  }

  /** The parts are determined: there is one nearest value, and one way to clip it. */
  lemma PartsDetermined(sc: bool, n: int, o1: int, o2: int)
    ensures SumPart(sc, n, o1) && SumPart(sc, n, o2) ==> o1 == o2
    ensures ProductPart(sc, n, o1) && ProductPart(sc, n, o2) ==> o1 == o2
  {
  }

  /** A whole pass: at butterfly (ia, ia + half) both outputs meet their inputs, and the stage
      halves exactly if its own bit of the mask is set. */
  lemma StageComputes(plan: Plan<C16>, inverse: bool, st: nat, x: seq<C16>, ia: nat)
    requires plan.Valid() && plan.butterfly == Q15Butterfly(inverse) && st < plan.log2n && |x| == plan.N()
    requires ia < plan.N() && Upper(ia, plan.Half(st))
    ensures var half, k := plan.Half(st), ia % plan.Half(st) * plan.Step(st);
      && ia + half < |x| && k < |plan.table|
      && ButterflyMeets(inverse, plan.scale / Pow2(st) % 2 == 1, plan.table[k], x[ia], x[ia + half],
                        Stage(plan, st, x)[ia], Stage(plan, st, x)[ia + half])
  {
    hide Q15Butterfly, ButterflyMeets, Inputs, Upper, Pow2;
    var half := plan.Half(st);
    PairInputs(plan, st, x, ia);
    var k := ia % half * plan.Step(st);
    ButterflyComputes(inverse, plan.Scaled(st), plan.table[k], x[ia], x[ia + half]);
    StageAt(plan, st, x, ia);
    StageAt(plan, st, x, ia + half);
  }

  /** Both positions of a butterfly take the same three inputs. */
  lemma PairInputs<T>(plan: Plan<T>, st: nat, x: seq<T>, ia: nat)
    requires plan.Valid() && st < plan.log2n && |x| == plan.N()
    requires ia < plan.N() && Upper(ia, plan.Half(st))
    ensures var half, k := plan.Half(st), ia % plan.Half(st) * plan.Step(st);
      && ia + half < |x| && k < |plan.table| && !Upper(ia + half, half)
      && Inputs(plan, st, x, ia) == (plan.table[k], x[ia], x[ia + half]) == Inputs(plan, st, x, ia + half)
  {
    hide Upper;
    var half := plan.Half(st);
    plan.Geometry(st);
    InRange(ia, half, Pow2(st));
    TwiddleInRange(ia % half, half, plan.Step(st));
    LowerPartner(ia, half);
    hide Pow2;
  }

  lemma LowerPartner(p: nat, half: nat)
    requires half > 0 && Upper(p, half)
    ensures !Upper(p + half, half) && (p + half) % half == p % half
  {
    DivModUnique(p + half, half, p / half + 1, p % half);
  }

  /** The reference model's plan for four points: its table is built for 1024, every SCALE bit is
      set, and entry 256 is a quarter turn. */
  ghost predicate FourPointPlan(plan: Plan<C16>) {
    && plan.log2n == 2 && plan.logNmax == 10 && plan.scale == 0x3FF
    && |plan.table| == 512 && plan.table[256] == C16(0, -32768)
  }

  /** An input in range. */
  function ClippingInput(): seq<C16> {
    [C16(0, 0), C16(0, 32767), C16(0, 0), C16(0, -32768)]
  }

  /** "No stage can overflow" is not true of full-scale complex inputs, even with every SCALE
      bit set: the second butterfly of the first stage clips. */
  lemma FullScaleClips(plan: Plan<C16>, x: seq<C16>)
    requires FourPointPlan(plan) && plan.butterfly == Q15Butterfly(false) && x == ClippingInput()
    ensures plan.Valid() && |x| == plan.N()
    ensures plan.Scaled(0) && plan.Scaled(1)
    ensures forall t :: 0 <= t < |x| ==> Fits(x[t])
    ensures Stage(plan, 0, x)[3] != Stage(Unsaturated(plan, false), 0, x)[3]
  {
    hide Q15Butterfly, RawButterfly, Output, Pow2, Twist;
    ClippingValues(plan);
    ClippingValues(Unsaturated(plan, false));
    ClippingButterfly(x[1], x[3], plan.table[256]);
    StageAt(plan, 0, x, 3);
    StageAt(Unsaturated(plan, false), 0, x, 3);
  }

  lemma StageAt<T>(plan: Plan<T>, st: nat, x: seq<T>, p: nat)
    requires plan.Valid() && st < plan.log2n && |x| == plan.N() && p < |x|
    ensures Stage(plan, st, x)[p] == Output(plan, st, x, p)
  {
  }

  lemma ClippingButterfly(a: C16, b: C16, w: C16)
    requires a == C16(0, 32767) && b == C16(0, -32768) == w
    ensures Q15Butterfly(false)(true, w, a, b).1 != RawButterfly(false)(true, w, a, b).1
  {
    hide Q15Butterfly, RawButterfly;
    ClipsIffOutsideWindow(false, true, w, a, b);
    assert Product(Difference(a, b), Twist(false, w)).re == 65535 * 32768;
  }

  lemma ClippingValues(plan: Plan<C16>)
    requires FourPointPlan(plan)
    ensures plan.Valid() && |ClippingInput()| == plan.N() && plan.Scaled(0) && plan.Scaled(1)
    ensures Output(plan, 0, ClippingInput(), 3)
         == plan.butterfly(true, plan.table[256], ClippingInput()[1], ClippingInput()[3]).1
  {
    SmallPowers();
    assert plan.Half(0) == 2 && plan.Step(0) == 256;
    assert !Upper(3, 2) && 3 % 2 * 256 == 256;
    var x := ClippingInput();
    assert Inputs(plan, 0, x, 3) == (plan.table[256], x[1], x[3]);
  }

  lemma SmallPowers()
    ensures Pow2(0) == 1 && Pow2(1) == 2 && Pow2(2) == 4 && Pow2(8) == 256 && Pow2(10) == 1024
  {
    assert Pow2(3) == 8 && Pow2(4) == 16 && Pow2(5) == 32 && Pow2(6) == 64 && Pow2(7) == 128;
  }

  // ------------------------------------------------------------ real-valued view

  function ToC(a: C16): Complex { Complex(a.re as real, a.im as real) }

  /** No table entry is longer than 1 by more than 9/8 of an LSB. */
  const TWIDDLE_MAX := 32769.125

  /** How much the roundings and the table of one butterfly can add to a magnitude. */
  const GROWTH := 2.2

  /** What a stage multiplies by. */
  function Gain(sc: bool): (g: real)
    ensures g == 0.5 || g == 1.0
  {
    if sc then 0.5 else 1.0
  }

  lemma PartsFit(a: C16, m: real)
    requires MagLe(ToC(a), m) && m <= 32767.0
    ensures Fits(a)
  {
    PartsBounded(ToC(a), m);
  }

  lemma ToCDifference(a: C16, b: C16)
    ensures ToC(Difference(a, b)) == Minus(ToC(a), ToC(b)) == Add(ToC(a), Neg(ToC(b)))
  {
  }

  lemma ToCProduct(d: C16, w: C16)
    ensures ToC(Product(d, w)) == Mul(ToC(d), ToC(w))
  {
    CastProduct(d.re, w.re);
    CastProduct(d.im, w.im);
    CastProduct(d.re, w.im);
    CastProduct(d.im, w.re);
  }

  lemma CastProduct(x: int, y: int)
    ensures (x * y) as real == (x as real) * (y as real)
  {
  }

  /** The sum output is within a rounding of the exact sum, halved or not. */
  function SumError(sc: bool, a: C16, b: C16): Complex {
    Minus(ToC(RawButterfly(false)(sc, a, a, b).0), Scale(Gain(sc), Add(ToC(a), ToC(b))))
  }

  lemma SumErrorSmall(sc: bool, a: C16, b: C16)
    ensures MagLe(SumError(sc, a, b), 0.75)
  {
    hide ScaleRnd, Gain, Product, Round15;
    HalfRounds(sc, a.re + b.re);
    HalfRounds(sc, a.im + b.im);
    MagFromParts(SumError(sc, a, b), 0.5, 0.5, 0.75);
  }

  lemma HalfRounds(sc: bool, v: int)
    ensures 0.0 <= ScaleRnd(v, sc) as real - Gain(sc) * (v as real) <= 0.5
  {
    if sc {
      var h := (v + 1) / 2;
      assert 2 * h == v || 2 * h == v + 1;
      assert (2 * h) as real == 2.0 * (h as real);
    }
  }

  /** The rounded difference is within both roundings of the exact product. */
  function ProductError(sc: bool, d: C16, w: C16): Complex {
    var m := Product(d, w);
    Minus(Complex(ScaleRnd(Round15(m.re), sc) as real, ScaleRnd(Round15(m.im), sc) as real),
          Scale(Gain(sc) / 32768.0, ToC(m)))
  }

  lemma ProductErrorSmall(sc: bool, d: C16, w: C16)
    ensures MagLe(ProductError(sc, d, w), 1.07)
  {
    BothRound(sc, Product(d, w).re);
    BothRound(sc, Product(d, w).im);
    MagFromParts(ProductError(sc, d, w), 0.75, 0.75, 1.07);
  }

  lemma BothRound(sc: bool, m: int)
    ensures -0.75 <= ScaleRnd(Round15(m), sc) as real - (Gain(sc) / 32768.0) * (m as real) <= 0.75
  {
    var u := ScaleRnd(Round15(m), sc);
    if sc {
      assert -49152 <= 65536 * u - m <= 49152;
      assert (65536 * u - m) as real == 65536.0 * (u as real) - (m as real);
    } else {
      assert -16384 <= 32768 * u - m <= 16384;
      assert (32768 * u - m) as real == 32768.0 * (u as real) - (m as real);
    }
  }

  // ------------------------------------------------------------ headroom

  /** Inputs of magnitude at most m leave a butterfly with magnitude at most m + 2.2 if the stage
      halves, and 2 * m + 2.2 if it does not. */
  lemma ButterflyGrowth(inverse: bool, sc: bool, w: C16, a: C16, b: C16, m: real)
    requires MagLe(ToC(a), m) && MagLe(ToC(b), m) && Gain(sc) * (m + m) <= 32767.0
    requires MagLe(ToC(Twist(inverse, w)), TWIDDLE_MAX)
    ensures MagLe(ToC(RawButterfly(inverse)(sc, w, a, b).0), Gain(sc) * (m + m) + GROWTH)
    ensures MagLe(ToC(RawButterfly(inverse)(sc, w, a, b).1), Gain(sc) * (m + m) + GROWTH)
  {
    var out := RawButterfly(inverse)(sc, w, a, b);
    SumGrowth(sc, a, b, m);
    assert out.0 == RawButterfly(false)(sc, a, a, b).0;
    DifferenceGrowth(sc, a, b, Twist(inverse, w), m);
  }

  lemma SumGrowth(sc: bool, a: C16, b: C16, m: real)
    requires MagLe(ToC(a), m) && MagLe(ToC(b), m)
    ensures MagLe(ToC(RawButterfly(false)(sc, a, a, b).0), Gain(sc) * (m + m) + GROWTH)
  {
    hide MagLe, Round15, ScaleRnd, Gain;
    var s, g := Add(ToC(a), ToC(b)), Gain(sc);
    MagOfSum(ToC(a), m, ToC(b), m);
    GainIsPositive(sc);
    MagOfScaled(g, s, m + m);
    SumErrorSmall(sc, a, b);
    MagOfSum(Scale(g, s), g * (m + m), SumError(sc, a, b), 0.75);
    assert Add(Scale(g, s), SumError(sc, a, b)) == ToC(RawButterfly(false)(sc, a, a, b).0);
    MagWeaken(ToC(RawButterfly(false)(sc, a, a, b).0), g * (m + m) + 0.75, g * (m + m) + GROWTH);
  }

  lemma GainIsPositive(sc: bool)
    ensures Gain(sc) >= 0.5
  {
  }

  lemma DifferenceGrowth(sc: bool, a: C16, b: C16, w: C16, m: real)
    requires MagLe(ToC(a), m) && MagLe(ToC(b), m) && Gain(sc) * (m + m) <= 32767.0
    requires MagLe(ToC(w), TWIDDLE_MAX)
    ensures var p := Product(Difference(a, b), w);
      MagLe(ToC(C16(ScaleRnd(Round15(p.re), sc), ScaleRnd(Round15(p.im), sc))), Gain(sc) * (m + m) + GROWTH)
  {
    hide MagLe, Round15, ScaleRnd, Mul, Gain;
    var d, p := Difference(a, b), Product(Difference(a, b), w);
    var out := C16(ScaleRnd(Round15(p.re), sc), ScaleRnd(Round15(p.im), sc));
    var c := Gain(sc) / 32768.0;
    GainIsPositive(sc);
    MagOfNeg(ToC(b), m);
    MagOfSum(ToC(a), m, Neg(ToC(b)), m);
    ToCDifference(a, b);
    ToCProduct(d, w);
    MagOfProduct(ToC(d), m + m, ToC(w), TWIDDLE_MAX);
    MagOfScaled(c, ToC(p), (m + m) * TWIDDLE_MAX);
    ProductErrorSmall(sc, d, w);
    MagOfSum(Scale(c, ToC(p)), c * ((m + m) * TWIDDLE_MAX), ProductError(sc, d, w), 1.07);
    assert Add(Scale(c, ToC(p)), ProductError(sc, d, w)) == ToC(out);
    assert c * ((m + m) * TWIDDLE_MAX) == Gain(sc) * (m + m) * (TWIDDLE_MAX / 32768.0);
    MagWeaken(ToC(out), c * ((m + m) * TWIDDLE_MAX) + 1.07, Gain(sc) * (m + m) + GROWTH);
  }

  ghost predicate AllWithin(x: seq<C16>, m: real) {
    forall t :: 0 <= t < |x| ==> MagLe(ToC(x[t]), m)
  }

  /** A Q15 plan with a table of bounded magnitude, and any SCALE mask. */
  ghost predicate BoundedQ15(plan: Plan<C16>, inverse: bool) {
    && plan.Valid()
    && plan.butterfly == Q15Butterfly(inverse)
    && (forall i :: 0 <= i < |plan.table| ==> MagLe(ToC(Twist(inverse, plan.table[i])), TWIDDLE_MAX))
  }

  /** The same plan with saturation taken out. */
  function Unsaturated(plan: Plan<C16>, inverse: bool): Plan<C16> {
    plan.(butterfly := RawButterfly(inverse))
  }

  /** One pass inside the headroom: saturation does not act, and magnitudes grow by at most
      2.2 if the pass halves, and otherwise to at most 2.2 above their double. */
  lemma StageHeadroom(plan: Plan<C16>, inverse: bool, st: nat, x: seq<C16>, m: real)
    requires BoundedQ15(plan, inverse) && st < plan.log2n && |x| == plan.N()
    requires AllWithin(x, m) && Gain(plan.Scaled(st)) * (m + m) + GROWTH <= 32767.0
    ensures Stage(plan, st, x) == Stage(Unsaturated(plan, inverse), st, x)
    ensures AllWithin(Stage(plan, st, x), Gain(plan.Scaled(st)) * (m + m) + GROWTH)
  {
    var raw := Unsaturated(plan, inverse);
    forall p | 0 <= p < |x|
      ensures Output(plan, st, x, p) == Output(raw, st, x, p)
      ensures MagLe(ToC(Output(plan, st, x, p)), Gain(plan.Scaled(st)) * (m + m) + GROWTH)
    {
      OutputHeadroom(plan, inverse, st, x, m, p);
    }
  }

  lemma OutputHeadroom(plan: Plan<C16>, inverse: bool, st: nat, x: seq<C16>, m: real, p: nat)
    requires BoundedQ15(plan, inverse) && st < plan.log2n && |x| == plan.N() && p < |x|
    requires AllWithin(x, m) && Gain(plan.Scaled(st)) * (m + m) + GROWTH <= 32767.0
    ensures Output(plan, st, x, p) == Output(Unsaturated(plan, inverse), st, x, p)
    ensures MagLe(ToC(Output(plan, st, x, p)), Gain(plan.Scaled(st)) * (m + m) + GROWTH)
  {
    SameInputs(plan, Unsaturated(plan, inverse), st, x, p);
    hide MagLe, RawButterfly, Twist, Upper, Inputs, Gain;
    var (w, a, b) := Inputs(plan, st, x, p);
    var sc := plan.Scaled(st);
    var out := RawButterfly(inverse)(sc, w, a, b);
    ButterflyGrowth(inverse, sc, w, a, b, m);
    PartsFit(out.0, Gain(sc) * (m + m) + GROWTH);
    PartsFit(out.1, Gain(sc) * (m + m) + GROWTH);
  }

  /** The inputs of a butterfly do not depend on its arithmetic. */
  lemma SameInputs<T>(plan: Plan<T>, other: Plan<T>, st: nat, x: seq<T>, p: nat)
    requires plan.Valid() && st < plan.log2n && |x| == plan.N() && p < plan.N()
    requires other == plan.(butterfly := other.butterfly)
    ensures Inputs(plan, st, x, p) == Inputs(other, st, x, p)
    ensures Upper(p, plan.Half(st)) == Upper(p, other.Half(st))
  {
  }

  // ------------------------------------------------------------ any SCALE mask

  /** How many of the first k stages halve. */
  function Ones(scale: nat, k: nat): (c: nat)
    ensures c <= k
  {
    if k == 0 then 0 else Ones(scale, k - 1) + scale / Pow2(k - 1) % 2
  }

  /** The bound on a magnitude after k stages that was m before them: every stage that does not
      halve doubles it. */
  function Room(scale: nat, k: nat, m: real): real {
    Pow2(k - Ones(scale, k)) as real * (m + GROWTH * k as real)
  }

  lemma RoomStarts(scale: nat, m: real)
    ensures Room(scale, 0, m) == m
  {
    assert Pow2(0) == 1;
  }

  /** The next stage keeps within the bound. */
  lemma RoomGrows(scale: nat, k: nat, m: real)
    requires m >= 0.0
    ensures var r := Room(scale, k, m);
      0.0 <= r <= Gain(scale / Pow2(k) % 2 == 1) * (r + r) + GROWTH <= Room(scale, k + 1, m)
  {
    hide Pow2, Ones;
    PowerGrows(scale, k);
    var u, v := Pow2(k - Ones(scale, k)), Pow2(k + 1 - Ones(scale, k + 1));
    var g, a := Gain(scale / Pow2(k) % 2 == 1), m + GROWTH * k as real;
    TimesNext(k);
    assert a >= 0.0;
    RoomArithmetic(g, u as real, v as real, a);
  }

  lemma TimesNext(k: nat)
    ensures GROWTH * (k + 1) as real == GROWTH * k as real + GROWTH && GROWTH * k as real >= 0.0
  {
  }

  lemma PowerGrows(scale: nat, k: nat)
    ensures Pow2(k + 1 - Ones(scale, k + 1)) as real
         == (if scale / Pow2(k) % 2 == 1 then 1.0 else 2.0) * Pow2(k - Ones(scale, k)) as real
  {
    Doubles(k - Ones(scale, k));
    assert Ones(scale, k + 1) == Ones(scale, k) + if scale / Pow2(k) % 2 == 1 then 1 else 0;
    hide Pow2, Ones;
  }

  lemma RoomArithmetic(g: real, u: real, v: real, a: real)
    requires u >= 1.0 && a >= 0.0 && ((g == 0.5 && v == u) || (g == 1.0 && v == 2.0 * u))
    ensures 0.0 <= u * a <= g * (u * a + u * a) + GROWTH <= v * (a + GROWTH)
  {
    ProductMonotone(0.0, 0.0, u, a);
    ProductMonotone(1.0, GROWTH, v, GROWTH);
    assert v * (a + GROWTH) == v * a + v * GROWTH;
    assert v * a == if g == 0.5 then u * a else 2.0 * (u * a);
  }

  lemma Doubles(n: nat)
    ensures Pow2(n + 1) == 2 * Pow2(n)
  {
  }

  lemma {:induction false} RoomMonotone(scale: nat, k: nat, n: nat, m: real)
    requires m >= 0.0 && k <= n
    ensures Room(scale, k, m) <= Room(scale, n, m)
    decreases n
  {
    hide Room;
    if k < n {
      RoomMonotone(scale, k, n - 1, m);
      RoomGrows(scale, n - 1, m);
    }
  }

  /** Headroom of the whole transform, for any SCALE mask: when every input magnitude m keeps
      2^z * (m + 2.2 * log2n) at or below 32767, z being the number of stages that do not halve, no
      saturation acts in any pass. */
  lemma {:induction false} NoStageClips(plan: Plan<C16>, inverse: bool, x: seq<C16>, m: real, k: nat)
    requires BoundedQ15(plan, inverse) && |x| == plan.N() && k <= plan.log2n
    requires AllWithin(x, m) && Room(plan.scale, plan.log2n, m) <= 32767.0
    ensures Stages(plan, k, x) == Stages(Unsaturated(plan, inverse), k, x)
    ensures AllWithin(Stages(plan, k, x), Room(plan.scale, k, m))
    ensures forall t :: 0 <= t < |x| ==> Fits(Stages(plan, k, x)[t])
  {
    hide Stage, MagLe, Room, Gain, AllWithin, Q15Butterfly;
    NotNegative(x, m);
    RoomMonotone(plan.scale, k, plan.log2n, m);
    if k > 0 {
      NoStageClips(plan, inverse, x, m, k - 1);
      var r := Room(plan.scale, k - 1, m);
      RoomGrows(plan.scale, k - 1, m);
      StageHeadroom(plan, inverse, k - 1, Stages(plan, k - 1, x), r);
      AllWeaken(Stages(plan, k, x), Gain(plan.Scaled(k - 1)) * (r + r) + GROWTH, Room(plan.scale, k, m));
    } else {
      RoomStarts(plan.scale, m);
    }
    AllPartsFit(Stages(plan, k, x), Room(plan.scale, k, m));
  }

  lemma NotNegative(x: seq<C16>, m: real)
    requires AllWithin(x, m)
    ensures x != [] ==> m >= 0.0
  {
    assert x != [] ==> MagLe(ToC(x[0]), m);
  }

  lemma AllWeaken(x: seq<C16>, r: real, s: real)
    requires AllWithin(x, r) && r <= s
    ensures AllWithin(x, s)
  {
    hide MagLe;
    forall t | 0 <= t < |x| ensures MagLe(ToC(x[t]), s) {
      MagWeaken(ToC(x[t]), r, s);
    }
  }

  lemma AllPartsFit(x: seq<C16>, m: real)
    requires AllWithin(x, m) && m <= 32767.0
    ensures forall t :: 0 <= t < |x| ==> Fits(x[t])
  {
    hide MagLe;
    forall t | 0 <= t < |x| ensures Fits(x[t]) {
      PartsFit(x[t], m);
    }
  }

  /** With every bit set nothing doubles, and with none set everything does. */
  lemma {:induction false} AllOnes(scale: nat, k: nat)
    ensures (forall st: nat :: st < k ==> scale / Pow2(st) % 2 == 1) ==> Ones(scale, k) == k
    ensures scale == 0 ==> Ones(scale, k) == 0
  {
    hide Pow2;
    if k > 0 {
      AllOnes(scale, k - 1);
      assert scale == 0 ==> scale / Pow2(k - 1) == 0;
    }
  }

  lemma FullRoom(scale: nat, k: nat, m: real)
    requires forall st: nat :: st < k ==> scale / Pow2(st) % 2 == 1
    ensures Room(scale, k, m) == m + GROWTH * k as real
  {
    AllOnes(scale, k);
    assert Pow2(0) == 1;
  }

  // ------------------------------------------------------------ the range of a whole run

  predicate FitsAt(f: seq<C16>, i: nat) { i < |f| ==> Fits(f[i]) }

  ghost predicate AllFit(f: seq<C16>) { forall i: nat :: FitsAt(f, i) }

  lemma SaturatedFits(inverse: bool, sc: bool, w: C16, a: C16, b: C16)
    ensures Fits(Q15Butterfly(inverse)(sc, w, a, b).0) && Fits(Q15Butterfly(inverse)(sc, w, a, b).1)
  {
    var raw := RawButterfly(inverse)(sc, w, a, b);
    assert Q15Butterfly(inverse)(sc, w, a, b) == (Saturate(raw.0), Saturate(raw.1));
  }

  lemma StageFits(plan: Plan<C16>, inverse: bool, st: nat, g: seq<C16>, p: nat)
    requires plan.Valid() && st < plan.log2n && |g| == plan.N()
    requires plan.butterfly == Q15Butterfly(inverse)
    ensures FitsAt(Stage(plan, st, g), p)
  {
    if p < |g| {
      var i := Inputs(plan, st, g, p);
      hide Inputs, Fits, Q15Butterfly;
      SaturatedFits(inverse, plan.Scaled(st), i.0, i.1, i.2);
      assert Stage(plan, st, g)[p] == Output(plan, st, g, p);
    }
  }

  /** Q15 results fit in halfwords, so storing them loses nothing. */
  lemma {:induction false} SpectrumFits(plan: Plan<C16>, inverse: bool, k: nat, f: seq<C16>)
    requires plan.Valid() && k <= plan.log2n && |f| == plan.N()
    requires plan.butterfly == Q15Butterfly(inverse) && AllFit(f)
    ensures AllFit(Stages(plan, k, f))
  {
    hide Stage, Q15Butterfly, FitsAt;
    if k > 0 {
      var g := Stages(plan, k - 1, f);
      var y := Stage(plan, k - 1, g);
      forall p: nat ensures FitsAt(y, p) {
        StageFits(plan, inverse, k - 1, g, p);
      }
    }
  }

  lemma TransformFits(plan: Plan<C16>, inverse: bool, f: seq<C16>)
    requires plan.Valid() && |f| == plan.N()
    requires plan.butterfly == Q15Butterfly(inverse) && AllFit(f)
    ensures AllFit(Transform(plan, f))
  {
    SpectrumFits(plan, inverse, plan.log2n, f);
    var g := Stages(plan, plan.log2n, f);
    hide Stages, Q15Butterfly;
    var y := Reorder(plan.log2n, g);
    forall p: nat ensures FitsAt(y, p) {
      if p < |g| {
        assert FitsAt(g, BitRev(p, plan.log2n));
      }
    }
  }

  // ------------------------------------------------------------ saturation, not wrap-around

  /** A constant full-scale input with no SCALE bit set stays at the rail: after k stages the first
      N / 2^k values are still full scale. */
  lemma {:induction false} FullScaleStays(plan: Plan<C16>, inverse: bool, x: seq<C16>, k: nat, p: nat)
    requires plan.Valid() && plan.butterfly == Q15Butterfly(inverse) && plan.scale == 0 && |x| == plan.N()
    requires forall t :: 0 <= t < |x| ==> x[t] == C16(32767, 32767)
    requires k <= plan.log2n && p < Pow2(plan.log2n - k)
    ensures p < |x| && Stages(plan, k, x)[p] == C16(32767, 32767)
  {
    hide Pow2, Stage, Q15Butterfly;
    BlockInside(plan.log2n, k);
    if k > 0 {
      Doubles(plan.log2n - k);
      FullScaleStays(plan, inverse, x, k - 1, p);
      FullScaleStays(plan, inverse, x, k - 1, p + plan.Half(k - 1));
      FullScaleNext(plan, inverse, k - 1, Stages(plan, k - 1, x), p);
    }
  }

  lemma FullScaleNext(plan: Plan<C16>, inverse: bool, st: nat, y: seq<C16>, p: nat)
    requires plan.Valid() && plan.butterfly == Q15Butterfly(inverse) && plan.scale == 0 && |y| == plan.N()
    requires st < plan.log2n && p < plan.Half(st) && p + plan.Half(st) < |y|
    requires y[p] == C16(32767, 32767) == y[p + plan.Half(st)]
    ensures Stage(plan, st, y)[p] == C16(32767, 32767)
  {
    hide Pow2, Inputs, Upper, Q15Butterfly;
    var half := plan.Half(st);
    FirstUpper(p, half);
    PairInputs(plan, st, y, p);
    StageAt(plan, st, y, p);
    RailButterfly(plan, inverse, st, plan.table[p % half * plan.Step(st)]);
  }

  lemma BlockInside(log2n: nat, k: nat)
    requires k <= log2n
    ensures Pow2(log2n - k) <= Pow2(log2n)
  {
    Pow2Add(log2n - k, k);
    MulLe(1, Pow2(k), Pow2(log2n - k));
  }

  lemma FirstUpper(p: nat, half: nat)
    requires p < half
    ensures Upper(p, half)
  {
    DivModUnique(p, half, 0, p);
  }

  lemma RailButterfly(plan: Plan<C16>, inverse: bool, st: nat, w: C16)
    requires plan.butterfly == Q15Butterfly(inverse) && plan.scale == 0
    ensures plan.butterfly(plan.Scaled(st), w, C16(32767, 32767), C16(32767, 32767)).0 == C16(32767, 32767)
  {
    var d, full := Pow2(st), C16(32767, 32767);
    hide Pow2, Round15, Product;
    assert 0 / d == 0;
    assert !plan.Scaled(st);
    var raw := RawButterfly(inverse)(false, w, full, full);
    assert raw.0 == C16(65534, 65534);
    assert Q15Butterfly(inverse)(false, w, full, full) == (Saturate(raw.0), Saturate(raw.1));
  }

  lemma FullScaleSaturates(plan: Plan<C16>, inverse: bool, x: seq<C16>)
    requires plan.Valid() && plan.butterfly == Q15Butterfly(inverse) && plan.scale == 0 && |x| == plan.N()
    requires forall t :: 0 <= t < |x| ==> x[t] == C16(32767, 32767)
    ensures |x| > 0 && Transform(plan, x)[0] == C16(32767, 32767)
  {
    hide Stages, Q15Butterfly;
    SmallPowers();
    hide Pow2;
    FullScaleStays(plan, inverse, x, plan.log2n, 0);
    ZeroReversed(plan.log2n);
    ReorderAt(plan.log2n, Stages(plan, plan.log2n, x), 0);
  }

  lemma ReorderAt<T>(log2n: nat, x: seq<T>, k: nat)
    requires |x| == Pow2(log2n) && k < |x|
    ensures Reorder(log2n, x)[k] == x[BitRev(k, log2n)]
  {
  }

  lemma {:induction false} ZeroReversed(n: nat)
    ensures BitRev(0, n) == 0
  {
    if n > 0 {
      ZeroReversed(n - 1);
    }
  }

  // ------------------------------------------------------------ exactly when a run clips

  /** The sum or the product met at position p of a pass survives its roundings. */
  predicate OutputSafe(plan: Plan<C16>, inverse: bool, st: nat, x: seq<C16>, p: nat)
    requires plan.Valid() && st < plan.log2n && |x| == plan.N()
  {
    p < |x| ==>
      var i := Inputs(plan, st, x, p);
      if Upper(p, plan.Half(st)) then SumSafe(plan.Scaled(st), i.1, i.2)
      else ProductSafe(plan.Scaled(st), Product(Difference(i.1, i.2), Twist(inverse, i.0)))
  }

  ghost predicate StageSafe(plan: Plan<C16>, inverse: bool, st: nat, x: seq<C16>)
    requires plan.Valid() && st < plan.log2n && |x| == plan.N()
  {
    forall p: nat :: OutputSafe(plan, inverse, st, x, p)
  }

  lemma MemberFits(x: seq<C16>, a: C16)
    requires AllFit(x) && a in x
    ensures Fits(a)
  {
    var q: nat :| q < |x| && x[q] == a;
    assert FitsAt(x, q);
  }

  lemma OutputClips(plan: Plan<C16>, inverse: bool, st: nat, x: seq<C16>, p: nat)
    requires plan.Valid() && st < plan.log2n && |x| == plan.N() && p < |x|
    requires plan.butterfly == Q15Butterfly(inverse) && AllFit(x)
    ensures var raw := Unsaturated(plan, inverse);
      Output(plan, st, x, p) == Output(raw, st, x, p) <==> OutputSafe(raw, inverse, st, x, p)
  {
    SameInputs(plan, Unsaturated(plan, inverse), st, x, p);
    hide Upper, Inputs, RawButterfly, Q15Butterfly, Fits, Product, Twist, ProductSafe, SumSafe, AllFit;
    var (w, a, b) := Inputs(plan, st, x, p);
    MemberFits(x, a);
    MemberFits(x, b);
    ClipsIffOutsideWindow(inverse, plan.Scaled(st), w, a, b);
  }

  lemma StageClips(plan: Plan<C16>, inverse: bool, st: nat, x: seq<C16>)
    requires plan.Valid() && st < plan.log2n && |x| == plan.N()
    requires plan.butterfly == Q15Butterfly(inverse) && AllFit(x)
    ensures var raw := Unsaturated(plan, inverse);
      Stage(plan, st, x) == Stage(raw, st, x) <==> StageSafe(raw, inverse, st, x)
  {
    hide Output, Upper, OutputSafe, AllFit, Q15Butterfly, RawButterfly;
    var raw := Unsaturated(plan, inverse);
    var y, z := Stage(plan, st, x), Stage(raw, st, x);
    forall p: nat | p < |x|
      ensures y[p] == z[p] <==> OutputSafe(raw, inverse, st, x, p)
    {
      OutputClips(plan, inverse, st, x, p);
      StageAt(plan, st, x, p);
      StageAt(raw, st, x, p);
    }
    forall p: nat | p >= |x| ensures OutputSafe(raw, inverse, st, x, p) {
      SafeBeyond(raw, inverse, st, x, p);
    }
  }

  lemma SafeBeyond(plan: Plan<C16>, inverse: bool, st: nat, x: seq<C16>, p: nat)
    requires plan.Valid() && st < plan.log2n && |x| == plan.N() && p >= |x|
    ensures OutputSafe(plan, inverse, st, x, p)
  {
  }

  /** No pass of the run differs from the run without saturation. */
  ghost predicate NeverClips(plan: Plan<C16>, inverse: bool, x: seq<C16>, k: nat)
    requires plan.Valid() && k <= plan.log2n && |x| == plan.N()
  {
    forall j: nat :: j <= k ==> Stages(plan, j, x) == Stages(Unsaturated(plan, inverse), j, x)
  }

  /** Every sum and product of the unsaturated run survives. */
  ghost predicate RunSafe(raw: Plan<C16>, inverse: bool, x: seq<C16>, k: nat)
    requires raw.Valid() && k <= raw.log2n && |x| == raw.N()
  {
    forall st: nat :: st < k ==> StageSafe(raw, inverse, st, Stages(raw, st, x))
  }

  /** For any SCALE mask, a run never clips exactly when every sum and product it meets without
      saturation stays inside the window of its stage. */
  lemma {:induction false} NeverClipsIff(plan: Plan<C16>, inverse: bool, x: seq<C16>, k: nat)
    requires plan.Valid() && k <= plan.log2n && |x| == plan.N()
    requires plan.butterfly == Q15Butterfly(inverse) && AllFit(x)
    ensures NeverClips(plan, inverse, x, k) <==> RunSafe(Unsaturated(plan, inverse), inverse, x, k)
  {
    hide AllFit, Stage, StageSafe, Q15Butterfly, RawButterfly;
    if k > 0 {
      var raw := Unsaturated(plan, inverse);
      NeverClipsIff(plan, inverse, x, k - 1);
      SpectrumFits(plan, inverse, k - 1, x);
      StageClips(plan, inverse, k - 1, Stages(plan, k - 1, x));
      assert NeverClips(plan, inverse, x, k) ==
             (NeverClips(plan, inverse, x, k - 1) && Stages(plan, k, x) == Stages(raw, k, x));
      assert RunSafe(raw, inverse, x, k) ==
             (RunSafe(raw, inverse, x, k - 1) && StageSafe(raw, inverse, k - 1, Stages(raw, k - 1, x)));
    }
  }

  // ------------------------------------------------------------ bounds on the parts of an input

  predicate PartsWithin(a: C16, m: int) { -m <= a.re <= m && -m <= a.im <= m }

  predicate PartsWithinAt(x: seq<C16>, m: int, t: nat) { t < |x| ==> PartsWithin(x[t], m) }

  ghost predicate AllPartsWithin(x: seq<C16>, m: int) { forall t: nat :: PartsWithinAt(x, m, t) }

  /** The sum of the parts of every entry of the program's table is at most 46340. */
  ghost predicate DiagonalTable(plan: Plan<C16>, inverse: bool) {
    forall i :: 0 <= i < |plan.table| ==> DiagonalAtMost(Twist(inverse, plan.table[i]))
  }

  predicate DiagonalAtMost(w: C16) {
    (if w.re < 0 then -w.re else w.re) + (if w.im < 0 then -w.im else w.im) <= 46340
  }

  /** With every stage halving, parts of up to 23154 never clip, in any stage of any size up to 1024. */
  lemma PartsNeverClip(plan: Plan<C16>, inverse: bool, x: seq<C16>, k: nat)
    requires BoundedQ15(plan, inverse) && |x| == plan.N() && k <= plan.log2n <= 10
    requires forall st: nat :: st < plan.log2n ==> plan.Scaled(st)
    requires AllPartsWithin(x, 23154)
    ensures Stages(plan, k, x) == Stages(Unsaturated(plan, inverse), k, x)
  {
    hide MagLe, Stages, BoundedQ15, PartsWithin, Room;
    forall t | 0 <= t < |x| ensures MagLe(ToC(x[t]), 32745.0) {
      assert PartsWithinAt(x, 23154, t);
      PartsToMagnitude(x[t]);
    }
    assert forall st: nat :: st < plan.log2n ==> plan.Scaled(st) ==> plan.scale / Pow2(st) % 2 == 1;
    FullRoom(plan.scale, plan.log2n, 32745.0);
    assert 32745.0 + GROWTH * plan.log2n as real <= 32767.0;
    NoStageClips(plan, inverse, x, 32745.0, k);
  }

  lemma PartsToMagnitude(a: C16)
    requires PartsWithin(a, 23154)
    ensures MagLe(ToC(a), 32745.0)
  {
    MagFromParts(ToC(a), 23154.0, 23154.0, 32745.0);
  }

  /** In the first pass the bound is 23170: up to it every product stays in the window. */
  lemma FirstPassInWindow(plan: Plan<C16>, inverse: bool, x: seq<C16>)
    requires plan.Valid() && plan.log2n > 0 && |x| == plan.N()
    requires DiagonalTable(plan, inverse) && AllPartsWithin(x, 23170)
    ensures forall p: nat :: p < |x| ==>
      var i := Inputs(plan, 0, x, p); ProductSafe(true, Product(Difference(i.1, i.2), Twist(inverse, i.0)))
  {
    hide Upper, Twist, PartsWithin, DiagonalAtMost, InWindow, Product, Difference;
    forall p: nat | p < |x|
      ensures var i := Inputs(plan, 0, x, p); ProductSafe(true, Product(Difference(i.1, i.2), Twist(inverse, i.0)))
    {
      var (w, a, b) := Inputs(plan, 0, x, p);
      var i: nat :| i < |plan.table| && plan.table[i] == w;
      var s: nat :| s < |x| && x[s] == a;
      var t: nat :| t < |x| && x[t] == b;
      assert PartsWithinAt(x, 23170, s) && PartsWithinAt(x, 23170, t);
      DiagonalProduct(a, b, Twist(inverse, w));
    }
  }

  lemma DiagonalProduct(a: C16, b: C16, w: C16)
    requires PartsWithin(a, 23170) && PartsWithin(b, 23170) && DiagonalAtMost(w)
    ensures var m := Product(Difference(a, b), w); InWindow(m.re) && InWindow(m.im)
  {
    var d := Difference(a, b);
    ProductWithin(d.re, w.re);
    ProductWithin(d.im, w.im);
    ProductWithin(d.re, w.im);
    ProductWithin(d.im, w.re);
  }

  lemma ProductWithin(d: int, w: int)
    requires -46340 <= d <= 46340
    ensures var b := 46340 * (if w < 0 then -w else w); -b <= d * w <= b
  {
    if w >= 0 {
      MulLe(-46340, d, w);
      MulLe(d, 46340, w);
    } else {
      MulLe(-46340, d, -w);
      MulLe(d, 46340, -w);
    }
  }

  /** One step above it, one butterfly clips: its inputs are opposite, and its twiddle is an eighth
      of a turn. */
  function EighthTurnInput(n: nat, m: int): (x: seq<C16>)
    requires n >= 8
    ensures |x| == n
  {
    seq(n, (t: nat) => if t == n / 8 then C16(m, m) else if t == n / 8 + n / 2 then C16(-m, -m) else C16(0, 0))
  }

  lemma EighthTurnClips(plan: Plan<C16>, x: seq<C16>)
    requires plan.Valid() && 3 <= plan.log2n && plan.Scaled(0) && plan.butterfly == Q15Butterfly(false)
    requires Pow2(plan.logNmax - 3) < |plan.table| && plan.table[Pow2(plan.logNmax - 3)] == C16(23170, -23170)
    requires plan.N() >= 8 && x == EighthTurnInput(plan.N(), 23171)
    ensures AllPartsWithin(x, 23171)
    ensures Stage(plan, 0, x) != Stage(Unsaturated(plan, false), 0, x)
  {
    var raw, p := Unsaturated(plan, false), plan.N() / 8 + plan.N() / 2;
    EighthTurnInputs(raw, x);
    hide Inputs, Upper, RawButterfly, Q15Butterfly, Pow2;
    assert AllFit(x);
    var m := Product(Difference(C16(23171, 23171), C16(-23171, -23171)), C16(23170, -23170));
    assert m.re == 46342 * 46340 && !InWindow(m.re);
    assert !OutputSafe(raw, false, 0, x, p);
    StageClips(plan, false, 0, x);
  }

  lemma EighthTurnInputs(plan: Plan<C16>, x: seq<C16>)
    requires plan.Valid() && 3 <= plan.log2n
    requires Pow2(plan.logNmax - 3) < |plan.table| && plan.table[Pow2(plan.logNmax - 3)] == C16(23170, -23170)
    requires plan.N() >= 8 && x == EighthTurnInput(plan.N(), 23171)
    ensures var p := plan.N() / 8 + plan.N() / 2;
      && p < |x| && !Upper(p, plan.Half(0))
      && Inputs(plan, 0, x, p) == (C16(23170, -23170), C16(23171, 23171), C16(-23171, -23171))
  {
    var l, e := plan.log2n, Pow2(plan.log2n - 3);
    assert Pow2(l - 2) == 2 * e && Pow2(l - 1) == 4 * e && Pow2(l) == 8 * e;
    Pow2Add(l - 3, plan.logNmax - l);
    hide Pow2, EighthTurnInput;
    var half, step, p := plan.Half(0), plan.Step(0), e + 4 * e;
    assert half == 4 * e && step == Pow2(plan.logNmax - l);
    DivModUnique(p, half, 1, e);
    assert p % half * step == Pow2(plan.logNmax - 3);
    EighthTurnAt(x, plan.N(), e);
  }

  lemma EighthTurnAt(x: seq<C16>, n: nat, e: nat)
    requires n == 8 * e >= 8 && x == EighthTurnInput(n, 23171)
    ensures x[e] == C16(23171, 23171) && x[5 * e] == C16(-23171, -23171)
  {
  }
}
