/** A forward transform followed by an inverse one gives back the input times N. */
module RoundTrip {
  import opened PowersOfTwo
  import opened Rings
  import opened FftSchedule
  import opened Dft

  // ------------------------------------------------------------ orthogonality

  function PowerAt<T>(r: Ring<T>, w: T, s: nat, d: nat): nat -> T {
    (k: nat) => Pow(r, w, Exponent(s, d, k))
  }

  /** The powers of w^(s*d) over a whole period cancel, for every d that is not a multiple of
      the period. */
  lemma {:induction false} PeriodSumsToZero<T(!new)>(r: Ring<T>, w: T, s: nat, d: nat, l: nat)
    requires IsCommutativeRing(r) && l > 0 && 0 < d < Pow2(l)
    requires Pow(r, w, Times(Pow2(l - 1), s)) == r.neg(r.one)
    ensures Sum(r, PowerAt(r, w, s, d), Pow2(l)) == r.zero
    decreases l
  {
    hide Times, Pow, Sum, PowerAt;
    var m := Pow2(l - 1);
    TwoHalves(r, w, s, d, m);
    if d % 2 == 0 {
      HalfPeriod(s, l);
      PeriodSumsToZero(r, w, 2 * s, d / 2, l - 1);
      EvenPowers(r, w, s, d / 2, m);
      assert r.AddLaws(r.zero, r.zero, r.zero);
    }
  }

  lemma TwoHalves<T(!new)>(r: Ring<T>, w: T, s: nat, d: nat, m: nat)
    requires IsCommutativeRing(r) && Pow(r, w, Times(m, s)) == r.neg(r.one)
    ensures var half := Sum(r, PowerAt(r, w, s, d), m);
      Sum(r, PowerAt(r, w, s, d), 2 * m) == if d % 2 == 0 then r.add(half, half) else r.zero
  {
    hide Times, Pow, Sum, PowerAt;
    var f := PowerAt(r, w, s, d);
    var second := (i: nat) => f(m + i);
    SumSplit(r, f, second, m, m);
    forall i: nat
      ensures second(i) == if d % 2 == 0 then f(i) else r.neg(f(i))
    {
      HalfPeriodLater(r, w, s, d, m, i);
    }
    if d % 2 == 0 {
      SumExt(r, second, f, m);
    } else {
      OppositeHalves(r, f, second, m);
    }
  }

  lemma EvenPowers<T>(r: Ring<T>, w: T, s: nat, d: nat, m: nat)
    ensures Sum(r, PowerAt(r, w, s, 2 * d), m) == Sum(r, PowerAt(r, w, 2 * s, d), m)
  {
    hide Exponent, Times, Pow, Sum;
    forall i: nat
      ensures PowerAt(r, w, s, 2 * d)(i) == PowerAt(r, w, 2 * s, d)(i)
    {
      ExponentHalves(s, 0, d, i);
    }
    SumExt(r, PowerAt(r, w, s, 2 * d), PowerAt(r, w, 2 * s, d), m);
  }

  lemma HalfPeriodLater<T(!new)>(r: Ring<T>, w: T, s: nat, d: nat, m: nat, i: nat)
    requires IsCommutativeRing(r) && Pow(r, w, Times(m, s)) == r.neg(r.one)
    ensures PowerAt(r, w, s, d)(m + i)
         == if d % 2 == 0 then PowerAt(r, w, s, d)(i) else r.neg(PowerAt(r, w, s, d)(i))
  {
    hide Exponent, Times, Pow;
    ExponentHalves(s, m, d, i);
    PowShift(r, w, Times(m, s), d, Exponent(s, d, i));
  }

  lemma OppositeHalves<T(!new)>(r: Ring<T>, f: nat -> T, g: nat -> T, m: nat)
    requires IsCommutativeRing(r)
    requires forall i: nat :: g(i) == r.neg(f(i))
    ensures r.add(Sum(r, f, m), Sum(r, g, m)) == r.zero
  {
    var zeros := (i: nat) => r.zero;
    forall i: nat
      ensures zeros(i) == r.add(f(i), g(i))
    {
      assert r.AddLaws(f(i), r.zero, r.zero);
    }
    SumAdd(r, f, g, zeros, m);
    SumZero(r, zeros, m);
  }

  lemma HalfPeriod(s: nat, l: nat)
    requires l > 1
    ensures Times(Pow2(l - 1), s) == Times(Pow2(l - 2), 2 * s)
  {
    assert (2 * Pow2(l - 2)) * s == Pow2(l - 2) * (2 * s);
  }

  lemma ExponentSwap(s: nat, k: nat, t: nat)
    ensures Exponent(s, k, t) == Exponent(s, t, k)
  {
    assert (s * k) * t == (s * t) * k;
  }

  lemma ExponentSplit(s: nat, k: nat, t: nat, d: nat)
    ensures Exponent(s, k, t + d) == Exponent(s, k, t) + Exponent(s, d, k)
  {
    assert (s * k) * (t + d) == (s * k) * t + (s * k) * d;
    ExponentSwap(s, k, d);
  }

  /** Input u of a forward transform, seen at output t of the inverse one. */
  function Echo<T>(r: Ring<T>, w: T, v: T, s: nat, u: nat, t: nat): nat -> T {
    (k: nat) => r.mul(Pow(r, w, Exponent(s, k, u)), Pow(r, v, Exponent(s, t, k)))
  }

  /** Each echo is a power of one root, of exponent the distance between u and t. */
  lemma EchoIsPower<T(!new)>(r: Ring<T>, w: T, v: T, s: nat, u: nat, t: nat, k: nat)
    requires IsCommutativeRing(r) && r.mul(w, v) == r.one
    ensures Echo(r, w, v, s, u, t)(k)
         == if t <= u then Pow(r, w, Exponent(s, u - t, k)) else Pow(r, v, Exponent(s, t - u, k))
  {
    hide Exponent, Pow;
    ExponentSwap(s, t, k);
    if t <= u {
      var e, p := Exponent(s, k, t), Pow(r, w, Exponent(s, u - t, k));
      ExponentSplit(s, k, t, u - t);
      PowAdd(r, w, e, Exponent(s, u - t, k));
      PowInverse(r, w, v, e);
      assert r.MulLaws(Pow(r, w, e), p, Pow(r, v, e)) && r.MulLaws(p, Pow(r, w, e), Pow(r, v, e));
      assert r.MulLaws(p, r.one, p);
    } else {
      var e, p := Exponent(s, k, u), Pow(r, v, Exponent(s, t - u, k));
      ExponentSplit(s, k, u, t - u);
      PowAdd(r, v, e, Exponent(s, t - u, k));
      PowInverse(r, w, v, e);
      assert r.MulLaws(Pow(r, w, e), Pow(r, v, e), p) && r.MulLaws(p, r.one, p) && r.MulLaws(r.one, p, p);
    }
  }

  lemma EchoSum<T(!new)>(r: Ring<T>, w: T, v: T, s: nat, l: nat, u: nat, t: nat)
    requires IsCommutativeRing(r) && r.mul(w, v) == r.one
    requires u < Pow2(l) && t < Pow2(l) && l > 0
    requires Pow(r, w, Times(Pow2(l - 1), s)) == r.neg(r.one) == Pow(r, v, Times(Pow2(l - 1), s))
    ensures Sum(r, Echo(r, w, v, s, u, t), Pow2(l))
         == if u == t then Sum(r, (k: nat) => r.one, Pow2(l)) else r.zero
  {
    hide Pow, Sum;
    var f := Echo(r, w, v, s, u, t);
    var g := if t <= u then PowerAt(r, w, s, u - t) else PowerAt(r, v, s, t - u);
    forall k: nat
      ensures f(k) == g(k)
    {
      EchoIsPower(r, w, v, s, u, t, k);
    }
    SumExt(r, f, g, Pow2(l));
    if u == t {
      forall k: nat
        ensures g(k) == r.one
      {
        assert Exponent(s, 0, k) == 0;
        PowZero(r, w);
      }
      SumExt(r, g, (k: nat) => r.one, Pow2(l));
    } else if t < u {
      PeriodSumsToZero(r, w, s, u - t, l);
    } else {
      PeriodSumsToZero(r, v, s, t - u, l);
    }
  }

  lemma PowZero<T>(r: Ring<T>, w: T)
    ensures Pow(r, w, 0) == r.one
  {
  }

  // ------------------------------------------------------------ inversion

  /** n copies of c added up. */
  function Multiple<T>(r: Ring<T>, n: nat, c: T): T {
    Sum(r, (k: nat) => c, n)
  }

  lemma MultipleIsProduct<T(!new)>(r: Ring<T>, n: nat, c: T)
    requires IsCommutativeRing(r)
    ensures Multiple(r, n, c) == r.mul(c, Multiple(r, n, r.one))
  {
    assert r.MulLaws(c, r.one, c);
    SumScale(r, c, (k: nat) => r.one, (k: nat) => c, n);
  }

  function At<T>(r: Ring<T>, x: seq<T>, i: nat): T {
    if i < |x| then x[i] else r.zero
  }

  /** The double sum behind output t of the inverse transform of a forward transform. */
  function Both<T>(r: Ring<T>, w: T, v: T, s: nat, x: seq<T>, t: nat): (nat, nat) -> T {
    (k: nat, u: nat) => r.mul(At(r, x, u), Echo(r, w, v, s, u, t)(k))
  }

  lemma InverseTerm<T(!new)>(r: Ring<T>, w: T, v: T, s: nat, x: seq<T>, t: nat, k: nat)
    requires IsCommutativeRing(r) && k < |x|
    ensures Term(r, v, DftOf(r, w, s, x), 0, s, t)(k)
         == Sum(r, (u: nat) => Both(r, w, v, s, x, t)(k, u), |x|)
  {
    hide Exponent, Pow;
    var f := Term(r, w, x, 0, s, k);
    var c := Pow(r, v, Exponent(s, t, k));
    var g := (u: nat) => Both(r, w, v, s, x, t)(k, u);
    forall u: nat | u < |x|
      ensures g(u) == r.mul(c, f(u))
    {
      var p := Pow(r, w, Exponent(s, k, u));
      assert f(u) == r.mul(x[u], p);
      assert Echo(r, w, v, s, u, t)(k) == r.mul(p, c);
      assert At(r, x, u) == x[u];
      assert Both(r, w, v, s, x, t)(k, u) == r.mul(x[u], r.mul(p, c));
      assert r.MulLaws(x[u], p, c) && r.MulLaws(r.mul(x[u], p), c, c);
    }
    SumScale(r, c, f, g, |x|);
    var y := DftOf(r, w, s, x);
    assert y[k] == Sum(r, f, |x|);
    assert r.MulLaws(y[k], c, c);
  }

  lemma InverseOutput<T(!new)>(r: Ring<T>, w: T, v: T, s: nat, l: nat, x: seq<T>, t: nat)
    requires IsCommutativeRing(r) && r.mul(w, v) == r.one && l > 0
    requires |x| == Pow2(l) && t < |x|
    requires Pow(r, w, Times(Pow2(l - 1), s)) == r.neg(r.one) == Pow(r, v, Times(Pow2(l - 1), s))
    ensures DftAt(r, v, DftOf(r, w, s, x), 0, |x|, s, t) == Multiple(r, |x|, x[t])
  {
    hide Pow, Times, DftOf, Echo;
    var n := |x|;
    var both := Both(r, w, v, s, x, t);
    var rows := (k: nat) => Sum(r, (u: nat) => both(k, u), n);
    var f := Term(r, v, DftOf(r, w, s, x), 0, s, t);
    forall k: nat | k < n
      ensures f(k) == rows(k)
    {
      InverseTerm(r, w, v, s, x, t, k);
      SumExt(r, (u: nat) => Both(r, w, v, s, x, t)(k, u), (u: nat) => both(k, u), n);
    }
    SumExt(r, f, rows, n);
    SumSwap(r, both, n, n);
    var columns := (u: nat) => Sum(r, (k: nat) => both(k, u), n);
    forall u: nat | u < n
      ensures columns(u) == if u == t then Multiple(r, n, x[t]) else r.zero
    {
      SumScale(r, x[u], Echo(r, w, v, s, u, t), (k: nat) => both(k, u), n);
      EchoSum(r, w, v, s, l, u, t);
      MultipleIsProduct(r, n, x[t]);
      MulZero(r, x[u]);
    }
    SumSingle(r, columns, n, t);
  }

  /** The inverse of a principal root is one too. */
  lemma InverseRoot<T(!new)>(r: Ring<T>, w: T, v: T, h: nat)
    requires IsCommutativeRing(r) && r.mul(w, v) == r.one && Pow(r, w, h) == r.neg(r.one)
    ensures Pow(r, v, h) == r.neg(r.one)
  {
    var p := Pow(r, v, h);
    PowInverse(r, w, v, h);
    MulNeg(r, r.one, p);
    assert r.MulLaws(p, r.one, p) && r.MulLaws(r.one, p, p);
    NegNeg(r, p);
  }

  /** Running the inverse plan on the result of the forward plan multiplies the input by N. */
  lemma InverseUndoesForward<T(!new)>(forward: Plan<T>, inverse: Plan<T>, r: Ring<T>, w: T, v: T, x: seq<T>)
    requires ExactPlan(forward, r, w) && ExactPlan(inverse, r, v) && r.mul(w, v) == r.one
    requires forward.log2n == inverse.log2n && forward.logNmax == inverse.logNmax
    requires |x| == forward.N()
    ensures Transform(inverse, Transform(forward, x)) == seq(|x|, (t: nat) requires t < |x| => Multiple(r, |x|, x[t]))
  {
    hide Pow, DftAt, IsCommutativeRing;
    var l, s := forward.log2n, Pow2(forward.logNmax - forward.log2n);
    TransformIsDft(forward, r, w, x);
    TransformIsDft(inverse, r, v, DftOf(r, w, s, x));
    forall t | 0 <= t < |x|
      ensures DftAt(r, v, DftOf(r, w, s, x), 0, |x|, s, t) == Multiple(r, |x|, x[t])
    {
      if l > 0 {
        forward.Geometry(0);
        InverseOutput(r, w, v, s, l, x, t);
      } else {
        OnePointTwice(r, w, v, s, x);
      }
    }
  }

  lemma OnePointTwice<T(!new)>(r: Ring<T>, w: T, v: T, s: nat, x: seq<T>)
    requires IsCommutativeRing(r) && |x| == 1
    ensures DftAt(r, v, DftOf(r, w, s, x), 0, 1, s, 0) == Multiple(r, 1, x[0])
  {
    hide DftAt;
    OnePoint(r, w, x, 0, s);
    OnePoint(r, v, DftOf(r, w, s, x), 0, s);
    SumSingle(r, (k: nat) => x[0], 1, 0);
  }
}
