/** With exact arithmetic in place of Q15, the pass structure of FftSchedule computes the
    discrete Fourier transform, in natural order, over every commutative ring and for every
    size; a forward transform followed by an inverse one multiplies by N. */
module Dft {
  import opened PowersOfTwo
  import opened Rings
  import opened FftSchedule

  /** The decimation-in-frequency butterfly without rounding, saturation or scaling. */
  function ExactButterfly<T>(r: Ring<T>): (bool, T, T, T) -> (T, T) {
    (scaled: bool, w: T, a: T, b: T) => (r.add(a, b), r.mul(r.Sub(a, b), w))
  }

  /** A plan of exact arithmetic whose table holds the powers of w, where w is a principal
      root: half the table period is minus one. */
  ghost predicate ExactPlan<T(!new)>(plan: Plan<T>, r: Ring<T>, w: T) {
    && plan.Valid() && plan.logNmax > 0
    && IsCommutativeRing(r)
    && plan.butterfly == ExactButterfly(r)
    && (forall i :: 0 <= i < |plan.table| ==> plan.table[i] == Pow(r, w, i))
    && Pow(r, w, |plan.table|) == r.neg(r.one)
  }

  /** Term t of output k of the transform of the m elements of x from off on, with root w^s. */
  function Term<T>(r: Ring<T>, w: T, x: seq<T>, off: nat, s: nat, k: nat): nat -> T {
    (t: nat) => if off + t < |x| then r.mul(x[off + t], Pow(r, w, Exponent(s, k, t))) else r.zero
  }

  function DftAt<T>(r: Ring<T>, w: T, x: seq<T>, off: nat, m: nat, s: nat, k: nat): T {
    Sum(r, Term(r, w, x, off, s, k), m)
  }

  /** The reference definition: X[k] is the sum over t of x[t] * (w^s)^(k*t). */
  function DftOf<T>(r: Ring<T>, w: T, s: nat, x: seq<T>): (y: seq<T>)
    ensures |y| == |x|
  {
    seq(|x|, (k: nat) => DftAt(r, w, x, 0, |x|, s, k))
  }

  // ------------------------------------------------------------ one stage, on one block

  /** The pair (t, t + h) of a block at off becomes the sum and the twiddled difference. */
  ghost predicate FoldedAt<T>(r: Ring<T>, w: T, x: seq<T>, y: seq<T>, off: nat, h: nat, s: nat, t: nat)
    requires |x| == |y| && off + 2 * h <= |x| && t < h
  {
    && y[off + t] == r.add(x[off + t], x[off + h + t])
    && y[off + h + t] == r.mul(r.Sub(x[off + t], x[off + h + t]), Pow(r, w, Times(s, t)))
  }

  ghost predicate Folded<T>(r: Ring<T>, w: T, x: seq<T>, y: seq<T>, off: nat, h: nat, s: nat) {
    && |x| == |y| && off + 2 * h <= |x|
    && forall t :: 0 <= t < h ==> FoldedAt(r, w, x, y, off, h, s, t)
  }

  /** Half a period further, the power only changes sign. */
  lemma PowShift<T(!new)>(r: Ring<T>, w: T, h: nat, m: nat, e: nat)
    requires IsCommutativeRing(r) && Pow(r, w, h) == r.neg(r.one)
    ensures Pow(r, w, Times(m, h) + e) == if m % 2 == 0 then Pow(r, w, e) else r.neg(Pow(r, w, e))
  {
    var p := Pow(r, w, e);
    PowAdd(r, w, m * h, e);
    PowMultiple(r, w, h, m);
    MulNeg(r, r.one, p);
    assert r.MulLaws(p, r.one, p) && r.MulLaws(r.one, p, p);
  }

  /** Term t of an even output: the twiddles p of the two halves agree. */
  lemma EvenTerm<T(!new)>(r: Ring<T>, p: T, a: T, b: T)
    requires IsCommutativeRing(r)
    ensures r.add(r.mul(a, p), r.mul(b, p)) == r.mul(r.add(a, b), p)
  {
    assert r.MulLaws(p, a, b) && r.MulLaws(a, p, p) && r.MulLaws(b, p, p) && r.MulLaws(r.add(a, b), p, p);
  }

  /** Term t of an odd output: the twiddles are opposite, and p is q times u. */
  lemma OddTerm<T(!new)>(r: Ring<T>, p: T, q: T, u: T, a: T, b: T)
    requires IsCommutativeRing(r) && p == r.mul(q, u)
    ensures r.add(r.mul(a, p), r.mul(b, r.neg(p))) == r.mul(r.mul(r.Sub(a, b), q), u)
  {
    MulNeg(r, b, p);
    EvenTerm(r, p, a, r.neg(b));
    assert r.MulLaws(r.Sub(a, b), q, u);
  }

  function Exponent(s: nat, k: nat, t: nat): (e: nat) { Times(Times(s, k), t) }

  function Times(a: nat, b: nat): (e: nat)
  {
    MulLe(0, a, b);
    a * b
  }

  lemma ExponentHalves(s: nat, h: nat, k: nat, t: nat)
    ensures Exponent(s, k, h + t) == Times(k, Times(h, s)) + Exponent(s, k, t)
    ensures Exponent(s, 2 * k, t) == Exponent(2 * s, k, t)
    ensures Exponent(s, 2 * k + 1, t) == Times(s, t) + Exponent(2 * s, k, t)
  {
    var sk := s * k;
    assert sk * (h + t) == sk * h + sk * t;
    assert sk * h == k * (h * s) by { assert sk * h == k * (s * h); }
    assert s * (2 * k) == 2 * sk == (2 * s) * k;
    assert s * (2 * k + 1) == 2 * sk + s;
    assert (2 * sk + s) * t == (2 * sk) * t + s * t;
  }

  /** The h-point transforms of the two folded halves are the even and the odd outputs of the
      2h-point transform of the block. */
  lemma FoldEven<T(!new)>(r: Ring<T>, w: T, x: seq<T>, y: seq<T>, off: nat, h: nat, s: nat, k: nat)
    requires IsCommutativeRing(r) && Pow(r, w, Times(h, s)) == r.neg(r.one)
    requires Folded(r, w, x, y, off, h, s)
    ensures DftAt(r, w, y, off, h, 2 * s, k) == DftAt(r, w, x, off, 2 * h, s, 2 * k)
  {
    hide Exponent, Times, Pow, Sum;
    var f := Term(r, w, x, off, s, 2 * k);
    var upper := (i: nat) => f(h + i);
    var g := Term(r, w, y, off, 2 * s, k);
    SumSplit(r, f, upper, h, h);
    forall t: nat | t < h
      ensures g(t) == r.add(f(t), upper(t))
    {
      assert FoldedAt(r, w, x, y, off, h, s, t);
      ExponentHalves(s, h, 2 * k, t);
      ExponentHalves(s, h, k, t);
      PowShift(r, w, Times(h, s), 2 * k, Exponent(s, 2 * k, t));
      EvenTerm(r, Pow(r, w, Exponent(s, 2 * k, t)), x[off + t], x[off + h + t]);
    }
    SumAdd(r, f, upper, g, h);
  }

  lemma FoldOdd<T(!new)>(r: Ring<T>, w: T, x: seq<T>, y: seq<T>, off: nat, h: nat, s: nat, k: nat)
    requires IsCommutativeRing(r) && Pow(r, w, Times(h, s)) == r.neg(r.one)
    requires Folded(r, w, x, y, off, h, s)
    ensures DftAt(r, w, y, off + h, h, 2 * s, k) == DftAt(r, w, x, off, 2 * h, s, 2 * k + 1)
  {
    hide Exponent, Times, Pow, Sum;
    var odd := 2 * k + 1;
    var f := Term(r, w, x, off, s, odd);
    var upper := (i: nat) => f(h + i);
    var g := Term(r, w, y, off + h, 2 * s, k);
    SumSplit(r, f, upper, h, h);
    forall t: nat | t < h
      ensures g(t) == r.add(f(t), upper(t))
    {
      assert FoldedAt(r, w, x, y, off, h, s, t);
      ExponentHalves(s, h, odd, t);
      ExponentHalves(s, h, k, t);
      PowShift(r, w, Times(h, s), odd, Exponent(s, odd, t));
      PowAdd(r, w, Times(s, t), Exponent(2 * s, k, t));
      OddTerm(r, Pow(r, w, Exponent(s, odd, t)), Pow(r, w, Times(s, t)), Pow(r, w, Exponent(2 * s, k, t)),
              x[off + t], x[off + h + t]);
    }
    SumAdd(r, f, upper, g, h);
  }

  /** The pair t of a block is one butterfly. */
  lemma BlockPair(block: nat, h: nat, t: nat)
    requires t < h
    ensures var p := Times(block, 2 * h) + t;
      && Upper(p, h) && p % h == t
      && !Upper(p + h, h) && (p + h) % h == t
  {
    var p := Times(block, 2 * h) + t;
    assert p == (2 * block) * h + t;
    assert p + h == (2 * block + 1) * h + t;
    DivModUnique(p, h, 2 * block, t);
    DivModUnique(p + h, h, 2 * block + 1, t);
  }

  /** A pass folds every block. */
  lemma StageFolds<T(!new)>(plan: Plan<T>, r: Ring<T>, w: T, st: nat, x: seq<T>, block: nat)
    requires ExactPlan(plan, r, w) && st < plan.log2n && |x| == plan.N() && block < Pow2(st)
    ensures Folded(r, w, x, Stage(plan, st, x), Times(block, 2 * plan.Half(st)), plan.Half(st), plan.Step(st))
  {
    hide FoldedAt;
    var h, s := plan.Half(st), plan.Step(st);
    plan.Geometry(st);
    BlockInRange(block, Pow2(st), h);
    forall t | 0 <= t < h
      ensures FoldedAt(r, w, x, Stage(plan, st, x), Times(block, 2 * h), h, s, t)
    {
      StagePair(plan, r, w, st, x, block, t);
    }
  }

  lemma StagePair<T(!new)>(plan: Plan<T>, r: Ring<T>, w: T, st: nat, x: seq<T>, block: nat, t: nat)
    requires ExactPlan(plan, r, w) && st < plan.log2n && |x| == plan.N() && block < Pow2(st) && t < plan.Half(st)
    requires Times(block, 2 * plan.Half(st)) + 2 * plan.Half(st) <= |x|
    ensures FoldedAt(r, w, x, Stage(plan, st, x), Times(block, 2 * plan.Half(st)), plan.Half(st), plan.Step(st), t)
  {
    hide Upper, Pow2, Pow, IsCommutativeRing;
    var h, s := plan.Half(st), plan.Step(st);
    var p := Times(block, 2 * h) + t;
    plan.Geometry(st);
    BlockPair(block, h, t);
    TwiddleInRange(t, h, s);
    assert t * s == Times(s, t);
    assert Inputs(plan, st, x, p) == (plan.table[t * s], x[p], x[p + h]);
    assert Inputs(plan, st, x, p + h) == (plan.table[t * s], x[p], x[p + h]);
  }

  lemma BlockInRange(block: nat, blocks: nat, h: nat)
    requires block < blocks
    ensures Times(block, 2 * h) + 2 * h <= blocks * (2 * h)
  {
    MulLe(block + 1, blocks, 2 * h);
    assert (block + 1) * (2 * h) == block * (2 * h) + 2 * h;
  }

  // ------------------------------------------------------------ all stages

  /** After st passes, the m-point transform of block b yields every 2^st-th output of the
      whole transform, starting from the bit-reversed block number. */
  ghost predicate BlockDone<T>(plan: Plan<T>, r: Ring<T>, w: T, x: seq<T>, st: nat, b: nat, k: nat)
    requires plan.Valid() && |x| == plan.N() && st <= plan.log2n
  {
    var m := Pow2(plan.log2n - st);
    DftAt(r, w, Stages(plan, st, x), Times(b, m), m, plan.Step(st), k)
      == DftAt(r, w, x, 0, |x|, plan.Step(0), Times(k, Pow2(st)) + BitRev(b, st))
  }

  lemma {:induction false} StagesDft<T(!new)>(plan: Plan<T>, r: Ring<T>, w: T, x: seq<T>, st: nat, b: nat, k: nat)
    requires ExactPlan(plan, r, w) && |x| == plan.N() && st <= plan.log2n && b < Pow2(st)
    ensures BlockDone(plan, r, w, x, st, b, k)
  {
    hide BlockDone, ExactPlan;
    if st == 0 {
      NoPassDone(plan, r, w, x, k);
    } else {
      var p, side := b / 2, b % 2;
      StagesDft(plan, r, w, x, st - 1, p, 2 * k + side);
      BlockStep(plan, r, w, x, st - 1, p, side, k);
    }
  }

  lemma NoPassDone<T(!new)>(plan: Plan<T>, r: Ring<T>, w: T, x: seq<T>, k: nat)
    requires ExactPlan(plan, r, w) && |x| == plan.N()
    ensures BlockDone(plan, r, w, x, 0, 0, k)
  {
    hide DftAt;
    assert Times(k, 1) == k && Times(0, plan.N()) == 0;
  }

  lemma BlockStep<T(!new)>(plan: Plan<T>, r: Ring<T>, w: T, x: seq<T>, st: nat, p: nat, side: nat, k: nat)
    requires ExactPlan(plan, r, w) && |x| == plan.N() && st < plan.log2n && p < Pow2(st) && side < 2
    requires BlockDone(plan, r, w, x, st, p, 2 * k + side)
    ensures BlockDone(plan, r, w, x, st + 1, 2 * p + side, k)
  {
    hide Pow, BitRev, Stage, DftAt, IsCommutativeRing, Folded;
    var y := Stages(plan, st, x);
    var h, s := plan.Half(st), plan.Step(st);
    plan.Geometry(st);
    StageFolds(plan, r, w, st, y, p);
    StagesNext(plan, st, x);
    BitRevStep(p, side, st + 1);
    BlockIndices(p, side, k, h, Pow2(st));
    if side == 0 {
      FoldEven(r, w, y, Stage(plan, st, y), Times(p, 2 * h), h, s, k);
    } else {
      FoldOdd(r, w, y, Stage(plan, st, y), Times(p, 2 * h), h, s, k);
    }
  }

  lemma BlockIndices(p: nat, side: nat, k: nat, h: nat, d: nat)
    requires side < 2
    ensures Times(2 * p + side, h) == Times(p, 2 * h) + (if side == 0 then 0 else h)
    ensures Times(2 * k + side, d) == Times(k, 2 * d) + (if side == 0 then 0 else d)
  {
    if side == 1 {
      assert (2 * p + 1) * h == (2 * p) * h + h;
      assert (2 * k + 1) * d == (2 * k) * d + d;
    }
    assert (2 * p) * h == p * (2 * h);
    assert (2 * k) * d == k * (2 * d);
  }

  /** The main theorem: the transform of the plan is the DFT, in natural order, for every
      size and every principal root. */
  lemma TransformIsDft<T(!new)>(plan: Plan<T>, r: Ring<T>, w: T, x: seq<T>)
    requires ExactPlan(plan, r, w) && |x| == plan.N()
    ensures Transform(plan, x) == DftOf(r, w, Pow2(plan.logNmax - plan.log2n), x)
  {
    forall k | 0 <= k < plan.N()
      ensures Transform(plan, x)[k] == DftAt(r, w, x, 0, plan.N(), plan.Step(0), k)
    {
      OutputIsDft(plan, r, w, x, k);
    }
  }

  lemma OutputIsDft<T(!new)>(plan: Plan<T>, r: Ring<T>, w: T, x: seq<T>, k: nat)
    requires ExactPlan(plan, r, w) && |x| == plan.N() && k < plan.N()
    ensures Transform(plan, x)[k] == DftAt(r, w, x, 0, plan.N(), plan.Step(0), k)
  {
    hide DftAt;
    var L := plan.log2n;
    var b := BitRev(k, L);
    BitRevInvolution(k, L);
    StagesDft(plan, r, w, x, L, b, 0);
    OnePoint(r, w, Stages(plan, L, x), b, plan.Step(L));
  }

  lemma OnePoint<T(!new)>(r: Ring<T>, w: T, y: seq<T>, b: nat, s: nat)
    requires IsCommutativeRing(r) && b < |y|
    ensures DftAt(r, w, y, b, 1, s, 0) == y[b]
  {
    var f := Term(r, w, y, b, s, 0);
    SumSingle(r, f, 1, 0);
    assert s * 0 * 0 == 0;
    assert r.MulLaws(y[b], r.one, r.one);
  }
}
