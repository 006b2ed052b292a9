/** The Q15 twiddle table, and the accuracy of the transform that uses it: the tolerance of
    the test bench, 4 + 2 * log2n LSB, follows for every input inside the headroom. */
module Twiddles {
  import opened PowersOfTwo
  import opened Rings
  import opened Complexes
  import opened FftSchedule
  import opened Dft
  import opened FixedPoint
  import opened Accuracy

  /** Round to nearest into Q15, clamped: +1.0 has no encoding. */
  function Quantise(x: real): (q: int)
    ensures IsInt16(q)
  {
    Sat16((x * 32768.0 + 0.5).Floor)
  }

  lemma QuantiseError(x: real)
    requires -1.0 <= x <= 1.0
    ensures -1.0 <= Quantise(x) as real - 32768.0 * x <= 0.5
    ensures x <= 0.9 ==> -0.5 <= Quantise(x) as real - 32768.0 * x
    ensures Quantise(x) == -32768 ==> x <= -0.9
  {
  }

  /** Exactly: the nearest Q15 value, a tie going up, clipped to 16 bits. */
  lemma QuantiseRounds(x: real)
    ensures var q, v := Quantise(x), 32768.0 * x;
      if v >= 32767.5 then q == 32767
      else if v < -32768.5 then q == -32768
      else q as real - 0.5 <= v < q as real + 0.5
  {
  }

  /** The table entry for the unit number c. */
  function Entry(c: Complex): C16 {
    C16(Quantise(c.re), Quantise(c.im))
  }

  /** The exact twiddle that a table entry stands for. */
  function Exact(inverse: bool, c: Complex): Complex {
    if inverse then Conj(c) else c
  }

  lemma UnitParts(c: Complex)
    requires Norm(c) == 1.0
    ensures -1.0 <= c.re <= 1.0 && -1.0 <= c.im <= 1.0
    ensures -0.9 <= c.re <= 0.9 || -0.9 <= c.im <= 0.9
  {
    PartsBounded(c, 1.0);
    if !(-0.9 <= c.re <= 0.9) && !(-0.9 <= c.im <= 0.9) {
      LargeParts(c);
    }
  }

  lemma LargeParts(c: Complex)
    requires !(-0.9 <= c.re <= 0.9) && !(-0.9 <= c.im <= 0.9)
    ensures Norm(c) > 1.0
  {
    LargePart(c.re);
    LargePart(c.im);
    var p, q := c.re * c.re, c.im * c.im;
    assert p + q > 1.0;
  }

  lemma LargePart(x: real)
    requires !(-0.9 <= x <= 0.9)
    ensures x * x > 0.5
  {
    if x > 0.0 {
      ProductMonotone(0.9, 0.9, x, x);
    } else {
      ProductMonotone(0.9, 0.9, -x, -x);
      assert (-x) * (-x) == x * x;
    }
  }

  /** Error of the imaginary part after the optional conjugation. */
  lemma TwistedImError(inverse: bool, c: Complex)
    requires -1.0 <= c.im <= 1.0
    ensures var e := Twist(inverse, Entry(c)).im as real - 32768.0 * Exact(inverse, c).im;
      -1.0 <= e <= 1.0 && (-0.9 <= c.im <= 0.9 ==> -0.5 <= e <= 0.5)
  {
    QuantiseError(c.im);
  }

  lemma EntryError(inverse: bool, c: Complex)
    requires Norm(c) == 1.0
    ensures Close(Twist(inverse, Entry(c)), Exact(inverse, c), 32768.0, TABLE_ERROR)
  {
    UnitParts(c);
    QuantiseError(c.re);
    TwistedImError(inverse, c);
    hide Quantise, Norm;
    var error := Minus(ToC(Twist(inverse, Entry(c))), Scale(32768.0, Exact(inverse, c)));
    if -0.9 <= c.re <= 0.9 {
      MagFromParts(error, 0.5, 1.0, TABLE_ERROR);
    } else {
      MagFromParts(error, 1.0, 0.5, TABLE_ERROR);
    }
  }

  /** A quantised unit number is within 9/8 LSB of the exact one, and its magnitude is
      within the bound the headroom needs. */
  lemma EntryClose(inverse: bool, c: Complex)
    requires Norm(c) == 1.0
    ensures Close(Twist(inverse, Entry(c)), Exact(inverse, c), 32768.0, TABLE_ERROR)
    ensures MagLe(Exact(inverse, c), 1.0)
    ensures MagLe(ToC(Twist(inverse, Entry(c))), TWIDDLE_MAX)
  {
    var q, t := ToC(Twist(inverse, Entry(c))), Exact(inverse, c);
    EntryError(inverse, c);
    assert MagLe(t, 1.0) by { assert (-c.im) * (-c.im) == c.im * c.im; }
    hide MagLe, Twist, Entry, Exact;
    MagOfScaled(32768.0, t, 1.0);
    var error := Minus(q, Scale(32768.0, t));
    MagOfSum(Scale(32768.0, t), 32768.0 * 1.0, error, TABLE_ERROR);
    assert Add(Scale(32768.0, t), error) == q;
  }

  // ------------------------------------------------------------ the whole table

  lemma {:induction false} PowUnit(w: Complex, k: nat)
    requires Norm(w) == 1.0
    ensures Norm(Pow(ComplexRing(), w, k)) == 1.0
  {
    if k > 0 {
      PowUnit(w, k - 1);
      NormOfProduct(w, Pow(ComplexRing(), w, k - 1));
    }
  }

  lemma {:induction false} PowConj(w: Complex, k: nat)
    ensures Pow(ComplexRing(), Conj(w), k) == Conj(Pow(ComplexRing(), w, k))
  {
    if k > 0 {
      PowConj(w, k - 1);
      ConjOfProduct(w, Pow(ComplexRing(), w, k - 1));
    }
  }

  lemma ConjOfProduct(a: Complex, b: Complex)
    ensures Mul(Conj(a), Conj(b)) == Conj(Mul(a, b))
  {
    assert (-a.im) * (-b.im) == a.im * b.im;
    assert a.re * (-b.im) == -(a.re * b.im);
    assert (-a.im) * b.re == -(a.im * b.re);
  }

  function BuildTable(w: Complex, logNmax: nat): seq<C16>
  {
    seq(Pow2(logNmax) / 2, (i: nat) => Entry(Pow(ComplexRing(), w, i)))
  }

  /** The plan of the reference model; w stands for exp(-2*pi*i/NMAX). */
  function BuildPlan(w: Complex, log2n: nat, logNmax: nat, scale: nat, inverse: bool): Plan<C16> {
    Plan(log2n, logNmax, scale, BuildTable(w, logNmax), Q15Butterfly(inverse))
  }

  /** The program's table holds the quarter turn that lets full-scale inputs clip. */
  lemma TableHasQuarterTurn(w: Complex)
    requires Pow(ComplexRing(), w, 256) == Complex(0.0, -1.0)
    ensures FourPointPlan(BuildPlan(w, 2, 10, 0x3FF, false))
  {
    SmallPowers();
    hide Pow, Pow2;
  }

  function ExactPlanFor(w: Complex, log2n: nat, logNmax: nat): Plan<Complex> {
    Plan(log2n, logNmax, 0, seq(Pow2(logNmax) / 2, (i: nat) => Pow(ComplexRing(), w, i)), ExactButterfly(ComplexRing()))
  }

  /** w is a unit number and a principal root for the table size. */
  ghost predicate UnitRoot(w: Complex, logNmax: nat) {
    Norm(w) == 1.0 && logNmax > 0 && Pow(ComplexRing(), w, Pow2(logNmax) / 2) == Complex(-1.0, 0.0)
  }

  /** The exact twiddle number i, of either direction, is a power of one root. */
  lemma ExactPower(inverse: bool, w: Complex, i: nat)
    ensures Exact(inverse, Pow(ComplexRing(), w, i)) == Pow(ComplexRing(), Exact(inverse, w), i)
  {
    PowConj(w, i);
  }

  lemma EntriesClose(w: Complex, inverse: bool, i: nat)
    requires Norm(w) == 1.0
    ensures var q, t := Twist(inverse, Entry(Pow(ComplexRing(), w, i))), Pow(ComplexRing(), Exact(inverse, w), i);
      Close(q, t, 32768.0, TABLE_ERROR) && MagLe(t, 1.0) && MagLe(ToC(q), TWIDDLE_MAX)
  {
    hide Close, Norm, MagLe, Twist, Entry, Exact;
    PowUnit(w, i);
    ExactPower(inverse, w, i);
    EntryClose(inverse, Pow(ComplexRing(), w, i));
  }

  lemma TableApproximates(w: Complex, log2n: nat, logNmax: nat, scale: nat, inverse: bool)
    requires UnitRoot(w, logNmax) && log2n <= logNmax
    ensures Approximates(BuildPlan(w, log2n, logNmax, scale, inverse), inverse,
                         ExactPlanFor(Exact(inverse, w), log2n, logNmax))
  {
    hide Close, Pow, Norm, MagLe, Twist, Entry, Exact;
    var v := Exact(inverse, w);
    var plan, exact := BuildPlan(w, log2n, logNmax, scale, inverse), ExactPlanFor(v, log2n, logNmax);
    forall i: nat | i < |plan.table|
      ensures Close(Twist(inverse, plan.table[i]), exact.table[i], 32768.0, TABLE_ERROR)
      ensures MagLe(exact.table[i], 1.0) && MagLe(ToC(Twist(inverse, plan.table[i])), TWIDDLE_MAX)
    {
      EntriesClose(w, inverse, i);
    }
  }

  lemma MinusOne(inverse: bool)
    ensures ComplexRing().neg(ComplexRing().one) == Complex(-1.0, 0.0) == Exact(inverse, Complex(-1.0, 0.0))
  {
  }

  lemma ExactTable(w: Complex, log2n: nat, logNmax: nat, inverse: bool)
    requires UnitRoot(w, logNmax) && log2n <= logNmax
    ensures ExactPlan(ExactPlanFor(Exact(inverse, w), log2n, logNmax), ComplexRing(), Exact(inverse, w))
  {
    hide IsCommutativeRing, Pow, Norm, ComplexRing, Exact;
    ComplexIsRing();
    MinusOne(inverse);
    ExactPower(inverse, w, Pow2(logNmax) / 2);
  }

  /** The accuracy theorem, for any SCALE mask and any table quantised from a unit root w. If s of
      the stages halve, z do not, and the inputs' magnitude m keeps 2^z * (m + 2.2 * log2n) at or
      below 32767, every bin of the transform differs from the exact DFT divided by 2^s by at most
      2^z * 2.2 * log2n LSB in each part. */
  lemma WithinBound(w: Complex, log2n: nat, logNmax: nat, scale: nat, inverse: bool, x: seq<C16>, m: real, k: nat)
    requires UnitRoot(w, logNmax) && log2n <= logNmax && |x| == Pow2(log2n) && k < |x|
    requires AllWithin(x, m)
    requires Pow2(log2n - Ones(scale, log2n)) as real * (m + 2.2 * log2n as real) <= 32767.0
    ensures var got := Transform(BuildPlan(w, log2n, logNmax, scale, inverse), x)[k];
      var dft := DftOf(ComplexRing(), Exact(inverse, w), Pow2(logNmax - log2n), ToCs(x))[k];
      var divisor := Pow2(Ones(scale, log2n)) as real;
      var bound := Pow2(log2n - Ones(scale, log2n)) as real * (2.2 * log2n as real);
      && -bound <= got.re as real - dft.re / divisor <= bound
      && -bound <= got.im as real - dft.im / divisor <= bound
  {
    hide AllWithin, Transform, DftOf, Pow, Approximates, ExactPlan, UnitRoot, Exact, ToCs, Close, Pow2, ComplexRing;
    hide Ones;
    var v := Exact(inverse, w);
    var plan, exact := BuildPlan(w, log2n, logNmax, scale, inverse), ExactPlanFor(v, log2n, logNmax);
    TableApproximates(w, log2n, logNmax, scale, inverse);
    ExactTable(w, log2n, logNmax, inverse);
    TransformClose(plan, inverse, exact, v, x, m);
    var got, dft := Transform(plan, x)[k], DftOf(ComplexRing(), v, Pow2(logNmax - log2n), ToCs(x))[k];
    CloseParts(got, dft, scale, log2n);
  }

  lemma CloseParts(q: C16, e: Complex, scale: nat, log2n: nat)
    requires Close(q, e, Shrink(scale, log2n), Room(scale, log2n, 0.0))
    ensures var divisor := Pow2(Ones(scale, log2n)) as real;
      var bound := Pow2(log2n - Ones(scale, log2n)) as real * (2.2 * log2n as real);
      && -bound <= q.re as real - e.re / divisor <= bound
      && -bound <= q.im as real - e.im / divisor <= bound
  {
    hide Ones, Pow2;
    PartsBounded(Minus(ToC(q), Scale(Shrink(scale, log2n), e)), Room(scale, log2n, 0.0));
    Reciprocal(e.re, Pow2(Ones(scale, log2n)) as real);
    Reciprocal(e.im, Pow2(Ones(scale, log2n)) as real);
  }

  lemma Reciprocal(x: real, d: real)
    requires d > 0.0
    ensures 1.0 / d * x == x / d
  {
  }

  /** With every SCALE bit set that is within 2.2 * log2n LSB of the DFT divided by N, below the test
      bench's tolerance for every size it supports. */
  lemma WithinTolerance(w: Complex, log2n: nat, logNmax: nat, scale: nat, inverse: bool, x: seq<C16>, m: real, k: nat)
    requires UnitRoot(w, logNmax) && log2n <= logNmax
    requires forall st :: 0 <= st < log2n ==> scale / Pow2(st) % 2 == 1
    requires |x| == Pow2(log2n) && k < |x|
    requires AllWithin(x, m) && m + GROWTH * log2n as real <= 32767.0
    ensures var got := Transform(BuildPlan(w, log2n, logNmax, scale, inverse), x)[k];
      var want := Scale(1.0 / Pow2(log2n) as real,
                        DftOf(ComplexRing(), Exact(inverse, w), Pow2(logNmax - log2n), ToCs(x))[k]);
      && -2.2 * log2n as real <= got.re as real - want.re <= 2.2 * log2n as real
      && -2.2 * log2n as real <= got.im as real - want.im <= 2.2 * log2n as real
      && (log2n <= 20 ==> 2.2 * log2n as real <= 4.0 + 2.0 * log2n as real)
  {
    hide AllWithin, Transform, DftOf, UnitRoot, Exact, ToCs, ComplexRing, BuildPlan, Ones;
    hide Pow2;
    AllOnes(scale, log2n);
    SmallPowers();
    WithinBound(w, log2n, logNmax, scale, inverse, x, m, k);
    ScaleDivides(DftOf(ComplexRing(), Exact(inverse, w), Pow2(logNmax - log2n), ToCs(x))[k], Pow2(log2n) as real);
  }

  lemma ScaleDivides(a: Complex, d: real)
    requires d > 0.0
    ensures Scale(1.0 / d, a) == Complex(a.re / d, a.im / d)
  {
    Reciprocal(a.re, d);
    Reciprocal(a.im, d);
  }

  /** With no SCALE bit set it is the undivided DFT. */
  lemma Undivided(w: Complex, log2n: nat, logNmax: nat, inverse: bool, x: seq<C16>, m: real, k: nat)
    requires UnitRoot(w, logNmax) && log2n <= logNmax && |x| == Pow2(log2n) && k < |x|
    requires AllWithin(x, m) && Pow2(log2n) as real * (m + 2.2 * log2n as real) <= 32767.0
    ensures var got := Transform(BuildPlan(w, log2n, logNmax, 0, inverse), x)[k];
      var dft := DftOf(ComplexRing(), Exact(inverse, w), Pow2(logNmax - log2n), ToCs(x))[k];
      var bound := Pow2(log2n) as real * (2.2 * log2n as real);
      && -bound <= got.re as real - dft.re <= bound
      && -bound <= got.im as real - dft.im <= bound
  {
    hide AllWithin, Transform, DftOf, UnitRoot, Exact, ToCs, ComplexRing, BuildPlan, Ones;
    AllOnes(0, log2n);
    assert Pow2(0) == 1;
    hide Pow2;
    WithinBound(w, log2n, logNmax, 0, inverse, x, m, k);
  }
}
