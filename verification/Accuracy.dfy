/** How far the Q15 transform can be from the exact one: for any SCALE mask and inputs inside the
    headroom, every bin is within 2.2 * log2n LSB of the DFT divided by two for each stage that
    halves, times two for each that does not, for every table quantised from the powers of a unit
    root. */
module Accuracy {
  import opened PowersOfTwo
  import opened Rings
  import opened Complexes
  import opened FftSchedule
  import opened Dft
  import opened FixedPoint

  const STEP_ERROR := 2.2
  const TABLE_ERROR := 1.125

  /** q is within bound of the exact value e scaled by c. */
  ghost predicate Close(q: C16, e: Complex, c: real, bound: real) {
    MagLe(Minus(ToC(q), Scale(c, e)), bound)
  }

  // ------------------------------------------------------------ one butterfly

  lemma SumClose(sc: bool, a: C16, b: C16, ea: Complex, eb: Complex, c: real, bound: real)
    requires Close(a, ea, c, bound) && Close(b, eb, c, bound)
    ensures Close(RawButterfly(false)(sc, a, a, b).0, Add(ea, eb), Gain(sc) * c,
                  Gain(sc) * (bound + bound) + STEP_ERROR)
  {
    hide MagLe, Round15, ScaleRnd, Gain;
    var out, g := RawButterfly(false)(sc, a, a, b).0, Gain(sc);
    var da, db := Minus(ToC(a), Scale(c, ea)), Minus(ToC(b), Scale(c, eb));
    GainIsPositive(sc);
    MagOfSum(da, bound, db, bound);
    MagOfScaled(g, Add(da, db), bound + bound);
    SumErrorSmall(sc, a, b);
    MagOfSum(Scale(g, Add(da, db)), g * (bound + bound), SumError(sc, a, b), 0.75);
    var total := Minus(ToC(out), Scale(g * c, Add(ea, eb)));
    assert total == Add(Scale(g, Add(da, db)), SumError(sc, a, b)) by {
      SumParts(g, a.re as real, b.re as real, c, ea.re, eb.re, out.re as real);
      SumParts(g, a.im as real, b.im as real, c, ea.im, eb.im, out.im as real);
    }
    MagWeaken(total, g * (bound + bound) + 0.75, g * (bound + bound) + STEP_ERROR);
  }

  lemma SumParts(g: real, a: real, b: real, c: real, x: real, y: real, o: real)
    ensures o - g * c * (x + y) == g * ((a - c * x) + (b - c * y)) + (o - g * (a + b))
  {
    assert g * ((a - c * x) + (b - c * y)) == g * (a + b) - g * (c * (x + y));
  }

  lemma DifferenceClose(sc: bool, a: C16, b: C16, w: C16, ea: Complex, eb: Complex, t: Complex, c: real, m: real,
                        bound: real)
    requires Close(a, ea, c, bound) && Close(b, eb, c, bound)
    requires MagLe(ToC(a), m) && MagLe(ToC(b), m) && Gain(sc) * (m + m) <= 32767.0
    requires Close(w, t, 32768.0, TABLE_ERROR) && MagLe(t, 1.0)
    ensures var p := Product(Difference(a, b), w);
      Close(C16(ScaleRnd(Round15(p.re), sc), ScaleRnd(Round15(p.im), sc)),
            Mul(Add(ea, Neg(eb)), t), Gain(sc) * c, Gain(sc) * (bound + bound) + STEP_ERROR)
  {
    hide MagLe, Round15, ScaleRnd, Gain;
    var d, g := Difference(a, b), Gain(sc);
    var p, h := Product(d, w), g / 32768.0;
    var out := C16(ScaleRnd(Round15(p.re), sc), ScaleRnd(Round15(p.im), sc));
    GainIsPositive(sc);
    // the error carried over from the inputs
    var da, db := Minus(ToC(a), Scale(c, ea)), Minus(ToC(b), Scale(c, eb));
    MagOfNeg(db, bound);
    MagOfSum(da, bound, Neg(db), bound);
    var carried := Add(da, Neg(db));
    MagOfProduct(carried, bound + bound, t, 1.0);
    MagOfScaled(g, Mul(carried, t), (bound + bound) * 1.0);
    // the error of the table entry
    ToCDifference(a, b);
    MagOfNeg(ToC(b), m);
    MagOfSum(ToC(a), m, Neg(ToC(b)), m);
    var quantised := Minus(ToC(w), Scale(32768.0, t));
    MagOfProduct(ToC(d), m + m, quantised, TABLE_ERROR);
    MagOfScaled(h, Mul(ToC(d), quantised), (m + m) * TABLE_ERROR);
    // the two roundings
    ProductErrorSmall(sc, d, w);
    var e1, e2, e3 := Scale(g, Mul(carried, t)), Scale(h, Mul(ToC(d), quantised)), ProductError(sc, d, w);
    var r1, r2 := g * ((bound + bound) * 1.0), h * ((m + m) * TABLE_ERROR);
    MagOfSum(e1, r1, e2, r2);
    MagOfSum(Add(e1, e2), r1 + r2, e3, 1.07);
    var total := Minus(ToC(out), Scale(g * c, Mul(Add(ea, Neg(eb)), t)));
    ErrorSplits(g, a, b, w, ea, eb, t, c, ToC(out));
    assert r2 == g * (m + m) * (TABLE_ERROR / 32768.0);
    MagWeaken(total, r1 + r2 + 1.07, g * (bound + bound) + STEP_ERROR);
  }

  /** The three sources of error of the difference path add up to the whole error. */
  lemma ErrorSplits(g: real, a: C16, b: C16, w: C16, ea: Complex, eb: Complex, t: Complex, c: real, out: Complex)
    ensures var d := Difference(a, b);
      var carried := Add(Minus(ToC(a), Scale(c, ea)), Neg(Minus(ToC(b), Scale(c, eb))));
      var quantised := Minus(ToC(w), Scale(32768.0, t));
      Minus(out, Scale(g * c, Mul(Add(ea, Neg(eb)), t)))
      == Add(Add(Scale(g, Mul(carried, t)), Scale(g / 32768.0, Mul(ToC(d), quantised))),
             Minus(out, Scale(g / 32768.0, ToC(Product(d, w)))))
  {
    var d := Difference(a, b);
    ToCDifference(a, b);
    ToCProduct(d, w);
    var x, y, z, u := ToC(d), ToC(w), Add(ea, Neg(eb)), Minus(ToC(w), Scale(32768.0, t));
    var carried := Add(Minus(ToC(a), Scale(c, ea)), Neg(Minus(ToC(b), Scale(c, eb))));
    assert carried == Minus(x, Scale(c, z)) by {
      assert c * (ea.re + -eb.re) == c * ea.re - c * eb.re;
      assert c * (ea.im + -eb.im) == c * ea.im - c * eb.im;
    }
    ErrorRe(g, x, y, z, t, c);
    ErrorIm(g, x, y, z, t, c);
  }

  lemma ErrorRe(g: real, x: Complex, y: Complex, z: Complex, t: Complex, c: real)
    ensures var u, v := Minus(y, Scale(32768.0, t)), Minus(x, Scale(c, z));
      g / 32768.0 * Mul(x, y).re - g * c * Mul(z, t).re == g * Mul(v, t).re + g / 32768.0 * Mul(x, u).re
  {
    ErrorTerm(g, x.re, y.re, z.re, t.re, c);
    ErrorTerm(g, x.im, y.im, z.im, t.im, c);
    var p, q := z.re * t.re, z.im * t.im;
    assert g * c * (p - q) == g * (c * p) - g * (c * q);
    TwoTerms(g, x.re * y.re, x.im * y.im);
    TwoTerms(g, x.re * (y.re - 32768.0 * t.re), x.im * (y.im - 32768.0 * t.im));
    OneTerms(g, (x.re - c * z.re) * t.re, (x.im - c * z.im) * t.im);
  }

  lemma ErrorIm(g: real, x: Complex, y: Complex, z: Complex, t: Complex, c: real)
    ensures var u, v := Minus(y, Scale(32768.0, t)), Minus(x, Scale(c, z));
      g / 32768.0 * Mul(x, y).im - g * c * Mul(z, t).im == g * Mul(v, t).im + g / 32768.0 * Mul(x, u).im
  {
    ErrorTerm(g, x.re, y.im, z.re, t.im, c);
    ErrorTerm(g, x.im, y.re, z.im, t.re, c);
    var p, q := z.re * t.im, z.im * t.re;
    assert g * c * (p + q) == g * (c * p) + g * (c * q);
    TwoTerms(g, x.re * y.im, x.im * y.re);
    TwoTerms(g, x.re * (y.im - 32768.0 * t.im), x.im * (y.re - 32768.0 * t.re));
    OneTerms(g, (x.re - c * z.re) * t.im, (x.im - c * z.im) * t.re);
  }

  lemma TwoTerms(g: real, p: real, q: real)
    ensures g / 32768.0 * (p - q) == g / 32768.0 * p - g / 32768.0 * q
    ensures g / 32768.0 * (p + q) == g / 32768.0 * p + g / 32768.0 * q
  {
  }

  lemma OneTerms(g: real, p: real, q: real)
    ensures g * (p - q) == g * p - g * q && g * (p + q) == g * p + g * q
  {
  }

  lemma ErrorTerm(g: real, x: real, y: real, z: real, t: real, c: real)
    ensures g / 32768.0 * (x * y) - g * (c * (z * t))
         == g * ((x - c * z) * t) + g / 32768.0 * (x * (y - 32768.0 * t))
  {
    assert (x - c * z) * t == x * t - c * (z * t);
    assert x * (y - 32768.0 * t) == x * y - 32768.0 * (x * t);
    assert g / 32768.0 * (x * y - 32768.0 * (x * t)) == g / 32768.0 * (x * y) - g * (x * t);
    assert g * (x * t - c * (z * t)) == g * (x * t) - g * (c * (z * t));
  }

  // ------------------------------------------------------------ all stages

  /** What the first k stages multiply by: one half for each that halves. */
  function Shrink(scale: nat, k: nat): (c: real)
    ensures c > 0.0
  {
    1.0 / Pow2(Ones(scale, k)) as real
  }

  lemma ShrinkStarts(scale: nat)
    ensures Shrink(scale, 0) == 1.0
  {
    assert Pow2(0) == 1;
  }

  lemma ShrinkNext(scale: nat, k: nat)
    ensures Shrink(scale, k + 1) == Gain(scale / Pow2(k) % 2 == 1) * Shrink(scale, k)
  {
    var n := Ones(scale, k);
    Doubles(n);
    hide Pow2;
    assert Pow2(n + 1) as real == 2.0 * Pow2(n) as real;
  }

  /** The exact plan that a Q15 plan approximates. */
  ghost predicate Approximates(plan: Plan<C16>, inverse: bool, exact: Plan<Complex>) {
    && BoundedQ15(plan, inverse) && exact.Valid()
    && plan.log2n == exact.log2n && plan.logNmax == exact.logNmax
    && exact.butterfly == ExactButterfly(ComplexRing())
    && forall i :: 0 <= i < |plan.table| ==>
         Close(Twist(inverse, plan.table[i]), exact.table[i], 32768.0, TABLE_ERROR) && MagLe(exact.table[i], 1.0)
  }

  ghost predicate AllClose(x: seq<C16>, e: seq<Complex>, c: real, bound: real) {
    |x| == |e| && forall p :: 0 <= p < |x| ==> Close(x[p], e[p], c, bound)
  }

  /** Both outputs of a butterfly. */
  lemma ButterflyClose(inverse: bool, sc: bool, w: C16, a: C16, b: C16, es: bool, t: Complex, ea: Complex, eb: Complex,
                       c: real, m: real, bound: real)
    requires Close(a, ea, c, bound) && Close(b, eb, c, bound)
    requires MagLe(ToC(a), m) && MagLe(ToC(b), m) && Gain(sc) * (m + m) <= 32767.0
    requires Close(Twist(inverse, w), t, 32768.0, TABLE_ERROR) && MagLe(t, 1.0)
    ensures var q, e := RawButterfly(inverse)(sc, w, a, b), ExactButterfly(ComplexRing())(es, t, ea, eb);
      var next := Gain(sc) * (bound + bound) + STEP_ERROR;
      Close(q.0, e.0, Gain(sc) * c, next) && Close(q.1, e.1, Gain(sc) * c, next)
  {
    SumClose(sc, a, b, ea, eb, c, bound);
    DifferenceClose(sc, a, b, Twist(inverse, w), ea, eb, t, c, m, bound);
    ExactOnComplexes(es, t, ea, eb);
    hide Close, Product, Difference, Twist, ScaleRnd, Round15, Gain;
    assert RawButterfly(inverse)(sc, w, a, b).0 == RawButterfly(false)(sc, a, a, b).0;
  }

  lemma ExactOnComplexes(sc: bool, t: Complex, a: Complex, b: Complex)
    ensures ExactButterfly(ComplexRing())(sc, t, a, b) == (Add(a, b), Mul(Add(a, Neg(b)), t))
  {
    hide Add, Mul, Neg;
    var r := ComplexRing();
    assert r.Sub(a, b) == Add(a, Neg(b));
    assert r.mul(r.Sub(a, b), t) == Mul(Add(a, Neg(b)), t);
  }

  lemma OutputClose(plan: Plan<C16>, inverse: bool, exact: Plan<Complex>, st: nat, x: seq<C16>, e: seq<Complex>,
                    c: real, m: real, bound: real, p: nat)
    requires Approximates(plan, inverse, exact) && st < plan.log2n && |x| == plan.N() && p < |x|
    requires AllClose(x, e, c, bound) && AllWithin(x, m) && Gain(plan.Scaled(st)) * (m + m) + GROWTH <= 32767.0
    ensures var g := Gain(plan.Scaled(st));
      Close(Output(plan, st, x, p), Output(exact, st, e, p), g * c, g * (bound + bound) + STEP_ERROR)
  {
    OutputHeadroom(plan, inverse, st, x, m, p);
    InputsAlign(plan, exact, st, x, e, p);
    SameInputs(plan, Unsaturated(plan, inverse), st, x, p);
    hide MagLe, Close, Upper, Inputs, Twist, RawButterfly, ExactButterfly, Q15Butterfly, Gain;
    var (w, a, b) := Inputs(plan, st, x, p);
    var (t, ea, eb) := Inputs(exact, st, e, p);
    ButterflyClose(inverse, plan.Scaled(st), w, a, b, exact.Scaled(st), t, ea, eb, c, m, bound);
  }

  lemma StageClose(plan: Plan<C16>, inverse: bool, exact: Plan<Complex>, st: nat, x: seq<C16>, e: seq<Complex>,
                   c: real, m: real, bound: real)
    requires Approximates(plan, inverse, exact) && st < plan.log2n && |x| == plan.N()
    requires AllClose(x, e, c, bound) && AllWithin(x, m) && Gain(plan.Scaled(st)) * (m + m) + GROWTH <= 32767.0
    ensures var g := Gain(plan.Scaled(st));
      AllClose(Stage(plan, st, x), Stage(exact, st, e), g * c, g * (bound + bound) + STEP_ERROR)
  {
    hide Close, Output, Gain;
    var g := Gain(plan.Scaled(st));
    forall p | 0 <= p < |x|
      ensures Close(Stage(plan, st, x)[p], Stage(exact, st, e)[p], g * c, g * (bound + bound) + STEP_ERROR)
    {
      OutputClose(plan, inverse, exact, st, x, e, c, m, bound, p);
    }
  }

  /** Two plans of one geometry take corresponding inputs. */
  lemma InputsAlign<S, T>(plan: Plan<S>, other: Plan<T>, st: nat, x: seq<S>, y: seq<T>, p: nat)
    requires plan.Valid() && other.Valid() && plan.log2n == other.log2n && plan.logNmax == other.logNmax
    requires st < plan.log2n && |x| == plan.N() == |y| && p < |x|
    ensures var i, j := Inputs(plan, st, x, p), Inputs(other, st, y, p);
      && (exists k :: 0 <= k < |plan.table| && i.0 == plan.table[k] && j.0 == other.table[k])
      && (exists k :: 0 <= k < |x| && i.1 == x[k] && j.1 == y[k])
      && (exists k :: 0 <= k < |x| && i.2 == x[k] && j.2 == y[k])
  {
    plan.Geometry(st);
    var half, step := plan.Half(st), plan.Step(st);
    InRange(p, half, Pow2(st));
    TwiddleInRange(p % half, half, step);
    assert plan.table[p % half * step] == Inputs(plan, st, x, p).0;
    assert other.table[p % half * step] == Inputs(other, st, y, p).0;
  }

  lemma {:induction false} StagesClose(plan: Plan<C16>, inverse: bool, exact: Plan<Complex>,
                                       x: seq<C16>, e: seq<Complex>,
                                       m: real, k: nat)
    requires Approximates(plan, inverse, exact) && |x| == plan.N() == |e| && k <= plan.log2n
    requires AllClose(x, e, 1.0, 0.0) && AllWithin(x, m) && Room(plan.scale, plan.log2n, m) <= 32767.0
    ensures AllClose(Stages(plan, k, x), Stages(exact, k, e), Shrink(plan.scale, k), Room(plan.scale, k, 0.0))
  {
    hide Stage, AllClose, AllWithin, Room, Approximates, Shrink;
    var s := plan.scale;
    FromApproximates(plan, inverse, exact);
    if k > 0 {
      StagesClose(plan, inverse, exact, x, e, m, k - 1);
      var y, f := Stages(plan, k - 1, x), Stages(exact, k - 1, e);
      NoStageClips(plan, inverse, x, m, k - 1);
      NotNegative(x, m);
      NextClose(plan, inverse, exact, k - 1, y, f, m);
    } else {
      RoomStarts(s, 0.0);
      ShrinkStarts(s);
    }
  }

  lemma FromApproximates(plan: Plan<C16>, inverse: bool, exact: Plan<Complex>)
    requires Approximates(plan, inverse, exact)
    ensures BoundedQ15(plan, inverse) && exact.Valid() && exact.log2n == plan.log2n
  {
  }

  lemma NextClose(plan: Plan<C16>, inverse: bool, exact: Plan<Complex>, k: nat, y: seq<C16>, f: seq<Complex>, m: real)
    requires Approximates(plan, inverse, exact) && k < plan.log2n && |y| == plan.N() == |f|
    requires m >= 0.0 && Room(plan.scale, plan.log2n, m) <= 32767.0
    requires AllWithin(y, Room(plan.scale, k, m)) && AllClose(y, f, Shrink(plan.scale, k), Room(plan.scale, k, 0.0))
    ensures AllClose(Stage(plan, k, y), Stage(exact, k, f), Shrink(plan.scale, k + 1), Room(plan.scale, k + 1, 0.0))
  {
    hide Stage, AllClose, AllWithin, Room, Gain, Shrink, ExactButterfly, Close;
    var s := plan.scale;
    FromApproximates(plan, inverse, exact);
    RoomGrows(s, k, m);
    RoomGrows(s, k, 0.0);
    RoomMonotone(s, k + 1, plan.log2n, m);
    ShrinkNext(s, k);
    var g, r := Gain(plan.Scaled(k)), Room(s, k, 0.0);
    StageClose(plan, inverse, exact, k, y, f, Shrink(s, k), Room(s, k, m), r);
    AllCloser(Stage(plan, k, y), Stage(exact, k, f), Shrink(s, k + 1), g * (r + r) + STEP_ERROR, Room(s, k + 1, 0.0));
  }

  lemma AllCloser(x: seq<C16>, e: seq<Complex>, c: real, r: real, s: real)
    requires AllClose(x, e, c, r) && r <= s
    ensures AllClose(x, e, c, s)
  {
    hide MagLe;
    forall p | 0 <= p < |x| ensures Close(x[p], e[p], c, s) {
      MagWeaken(Minus(ToC(x[p]), Scale(c, e[p])), r, s);
    }
  }

  /** The samples as complex numbers. */
  function ToCs(x: seq<C16>): (e: seq<Complex>)
    ensures |e| == |x|
  {
    seq(|x|, (i: nat) requires i < |x| => ToC(x[i]))
  }

  /** For any SCALE mask every bin of the Q15 transform is within 2^z * 2.2 * log2n of the exact DFT
      divided by 2^s, s of the stages halving and z not. */
  lemma TransformClose(plan: Plan<C16>, inverse: bool, exact: Plan<Complex>, w: Complex, x: seq<C16>, m: real)
    requires Approximates(plan, inverse, exact) && ExactPlan(exact, ComplexRing(), w) && |x| == plan.N()
    requires AllWithin(x, m) && Room(plan.scale, plan.log2n, m) <= 32767.0
    ensures AllClose(Transform(plan, x), DftOf(ComplexRing(), w, Pow2(plan.logNmax - plan.log2n), ToCs(x)),
                     Shrink(plan.scale, plan.log2n), Room(plan.scale, plan.log2n, 0.0))
  {
    hide AllClose, AllWithin, Stages, Reorder, DftOf, ToCs, Room, Shrink;
    var e, L := ToCs(x), plan.log2n;
    StartsClose(x);
    StagesClose(plan, inverse, exact, x, e, m, L);
    TransformIsDft(exact, ComplexRing(), w, e);
    ReorderClose(L, Stages(plan, L, x), Stages(exact, L, e), Shrink(plan.scale, L), Room(plan.scale, L, 0.0));
  }

  lemma StartsClose(x: seq<C16>)
    ensures AllClose(x, ToCs(x), 1.0, 0.0)
  {
    forall p | 0 <= p < |x|
      ensures Close(x[p], ToCs(x)[p], 1.0, 0.0)
    {
      assert Minus(ToC(x[p]), Scale(1.0, ToC(x[p]))) == Complex(0.0, 0.0);
    }
  }

  lemma ReorderClose(log2n: nat, x: seq<C16>, e: seq<Complex>, c: real, bound: real)
    requires |x| == Pow2(log2n) && AllClose(x, e, c, bound)
    ensures AllClose(Reorder(log2n, x), Reorder(log2n, e), c, bound)
  {
    hide Close;
    forall k | 0 <= k < |x|
      ensures Close(Reorder(log2n, x)[k], Reorder(log2n, e)[k], c, bound)
    {
      assert Close(x[BitRev(k, log2n)], e[BitRev(k, log2n)], c, bound);
    }
  }
}
