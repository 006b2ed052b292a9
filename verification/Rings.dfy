/** Commutative rings with unit, given by their operations, with finite sums and powers.
    Each law is a named predicate and serves as its own trigger, so that laws are used only
    where a proof asks for them. */
module Rings {

  datatype Ring<!T> = Ring(zero: T, one: T, add: (T, T) -> T, mul: (T, T) -> T, neg: T -> T)
  {
    function Sub(a: T, b: T): T { add(a, neg(b)) }

    ghost predicate AddLaws(a: T, b: T, c: T) {
      && add(a, b) == add(b, a)
      && add(add(a, b), c) == add(a, add(b, c))
      && add(a, zero) == a
      && add(a, neg(a)) == zero
    }

    ghost predicate MulLaws(a: T, b: T, c: T) {
      && mul(a, b) == mul(b, a)
      && mul(mul(a, b), c) == mul(a, mul(b, c))
      && mul(a, one) == a
      && mul(a, add(b, c)) == add(mul(a, b), mul(a, c))
    }
  }

  ghost predicate IsCommutativeRing<T(!new)>(r: Ring<T>) {
    && (forall a, b, c {:trigger r.AddLaws(a, b, c)} :: r.AddLaws(a, b, c))
    && (forall a, b, c {:trigger r.MulLaws(a, b, c)} :: r.MulLaws(a, b, c))
  }

  lemma Interchange<T(!new)>(r: Ring<T>, a: T, b: T, c: T, d: T)
    requires IsCommutativeRing(r)
    ensures r.add(r.add(a, b), r.add(c, d)) == r.add(r.add(a, c), r.add(b, d))
  {
    assert r.AddLaws(a, b, r.add(c, d)) && r.AddLaws(b, c, d);
    assert r.AddLaws(c, b, d) && r.AddLaws(a, c, r.add(b, d));
  }

  lemma MulInterchange<T(!new)>(r: Ring<T>, a: T, b: T, c: T, d: T)
    requires IsCommutativeRing(r)
    ensures r.mul(r.mul(a, b), r.mul(c, d)) == r.mul(r.mul(a, c), r.mul(b, d))
  {
    assert r.MulLaws(a, b, r.mul(c, d)) && r.MulLaws(b, c, d);
    assert r.MulLaws(c, b, d) && r.MulLaws(a, c, r.mul(b, d));
  }

  /** Cancelling in a sum. */
  lemma Cancel<T(!new)>(r: Ring<T>, a: T, b: T)
    requires IsCommutativeRing(r)
    requires r.add(a, b) == r.zero
    ensures b == r.neg(a)
  {
    assert r.AddLaws(r.neg(a), a, b) && r.AddLaws(a, r.neg(a), b) && r.AddLaws(b, r.zero, b);
    assert r.AddLaws(r.neg(a), r.zero, b) && r.AddLaws(r.zero, b, b);
  }

  lemma MulZero<T(!new)>(r: Ring<T>, a: T)
    requires IsCommutativeRing(r)
    ensures r.mul(a, r.zero) == r.zero && r.mul(r.zero, a) == r.zero
  {
    var p := r.mul(a, r.zero);
    assert r.AddLaws(r.zero, r.zero, p) && r.MulLaws(a, r.zero, r.zero);
    assert r.add(p, p) == p;
    assert r.AddLaws(p, p, r.neg(p)) && r.AddLaws(p, r.neg(p), p);
  }

  lemma MulNeg<T(!new)>(r: Ring<T>, a: T, b: T)
    requires IsCommutativeRing(r)
    ensures r.mul(a, r.neg(b)) == r.neg(r.mul(a, b)) == r.mul(r.neg(a), b)
  {
    NegOnRight(r, a, b);
    NegOnRight(r, b, a);
    assert r.MulLaws(a, b, a) && r.MulLaws(b, r.neg(a), a);
  }

  lemma NegOnRight<T(!new)>(r: Ring<T>, a: T, b: T)
    requires IsCommutativeRing(r)
    ensures r.mul(a, r.neg(b)) == r.neg(r.mul(a, b))
  {
    MulZero(r, a);
    assert r.AddLaws(b, b, b) && r.MulLaws(a, b, r.neg(b));
    Cancel(r, r.mul(a, b), r.mul(a, r.neg(b)));
  }

  lemma NegNeg<T(!new)>(r: Ring<T>, a: T)
    requires IsCommutativeRing(r)
    ensures r.neg(r.neg(a)) == a
  {
    assert r.AddLaws(a, r.neg(a), a);
    Cancel(r, r.neg(a), a);
  }

  // ------------------------------------------------------------ powers

  function Pow<T>(r: Ring<T>, w: T, e: nat): T {
    if e == 0 then r.one else r.mul(w, Pow(r, w, e - 1))
  }

  lemma {:induction false} PowAdd<T(!new)>(r: Ring<T>, w: T, a: nat, b: nat)
    requires IsCommutativeRing(r)
    ensures Pow(r, w, a + b) == r.mul(Pow(r, w, a), Pow(r, w, b))
  {
    if a == 0 {
      assert r.MulLaws(Pow(r, w, b), r.one, w);
    } else {
      PowAdd(r, w, a - 1, b);
      assert a + b - 1 == (a - 1) + b;
      assert r.MulLaws(w, Pow(r, w, a - 1), Pow(r, w, b));
    }
  }

  /** Powers of a root of minus one. */
  lemma {:induction false} PowMultiple<T(!new)>(r: Ring<T>, w: T, h: nat, m: nat)
    requires IsCommutativeRing(r) && Pow(r, w, h) == r.neg(r.one)
    ensures Pow(r, w, m * h) == if m % 2 == 0 then r.one else r.neg(r.one)
  {
    if m == 0 {
    } else {
      PowMultiple(r, w, h, m - 1);
      assert m * h == (m - 1) * h + h;
      PowAdd(r, w, (m - 1) * h, h);
      MulNeg(r, r.one, r.one);
      NegNeg(r, r.one);
      MulNeg(r, r.neg(r.one), r.one);
      assert r.MulLaws(r.one, r.one, w) && r.MulLaws(r.neg(r.one), r.one, w);
    }
  }

  /** Powers of inverse elements are inverse. */
  lemma {:induction false} PowInverse<T(!new)>(r: Ring<T>, w: T, v: T, e: nat)
    requires IsCommutativeRing(r) && r.mul(w, v) == r.one
    ensures r.mul(Pow(r, w, e), Pow(r, v, e)) == r.one
  {
    if e == 0 {
      assert r.MulLaws(r.one, r.one, w);
    } else {
      PowInverse(r, w, v, e - 1);
      MulInterchange(r, w, Pow(r, w, e - 1), v, Pow(r, v, e - 1));
      assert r.MulLaws(r.one, r.one, w);
    }
  }

  // ------------------------------------------------------------ sums

  function Sum<T>(r: Ring<T>, f: nat -> T, n: nat): T {
    if n == 0 then r.zero else r.add(Sum(r, f, n - 1), f(n - 1))
  }

  lemma {:induction false} SumExt<T>(r: Ring<T>, f: nat -> T, g: nat -> T, n: nat)
    requires forall i: nat :: i < n ==> f(i) == g(i)
    ensures Sum(r, f, n) == Sum(r, g, n)
  {
    if n > 0 {
      SumExt(r, f, g, n - 1);
    }
  }

  lemma {:induction false} SumAdd<T(!new)>(r: Ring<T>, f: nat -> T, g: nat -> T, h: nat -> T, n: nat)
    requires IsCommutativeRing(r)
    requires forall i: nat :: i < n ==> h(i) == r.add(f(i), g(i))
    ensures Sum(r, h, n) == r.add(Sum(r, f, n), Sum(r, g, n))
  {
    if n == 0 {
      assert r.AddLaws(r.zero, r.zero, r.zero);
    } else {
      SumAdd(r, f, g, h, n - 1);
      Interchange(r, Sum(r, f, n - 1), Sum(r, g, n - 1), f(n - 1), g(n - 1));
    }
  }

  lemma {:induction false} SumSplit<T(!new)>(r: Ring<T>, f: nat -> T, g: nat -> T, a: nat, b: nat)
    requires IsCommutativeRing(r)
    requires forall i: nat :: i < b ==> g(i) == f(a + i)
    ensures Sum(r, f, a + b) == r.add(Sum(r, f, a), Sum(r, g, b))
  {
    if b == 0 {
      assert r.AddLaws(Sum(r, f, a), r.zero, r.zero);
    } else {
      SumSplit(r, f, g, a, b - 1);
      assert Sum(r, f, a + b) == r.add(Sum(r, f, a + (b - 1)), f(a + (b - 1)));
      assert r.AddLaws(Sum(r, f, a), Sum(r, g, b - 1), g(b - 1));
    }
  }

  lemma {:induction false} SumScale<T(!new)>(r: Ring<T>, c: T, f: nat -> T, g: nat -> T, n: nat)
    requires IsCommutativeRing(r)
    requires forall i: nat :: i < n ==> g(i) == r.mul(c, f(i))
    ensures Sum(r, g, n) == r.mul(c, Sum(r, f, n))
  {
    if n == 0 {
      MulZero(r, c);
    } else {
      SumScale(r, c, f, g, n - 1);
      assert r.MulLaws(c, Sum(r, f, n - 1), f(n - 1));
    }
  }

  lemma {:induction false} SumZero<T(!new)>(r: Ring<T>, f: nat -> T, n: nat)
    requires IsCommutativeRing(r)
    requires forall i: nat :: i < n ==> f(i) == r.zero
    ensures Sum(r, f, n) == r.zero
  {
    if n > 0 {
      SumZero(r, f, n - 1);
      assert r.AddLaws(r.zero, r.zero, r.zero);
    }
  }

  /** A sum with a single non-zero term. */
  lemma {:induction false} SumSingle<T(!new)>(r: Ring<T>, f: nat -> T, n: nat, k: nat)
    requires IsCommutativeRing(r) && k < n
    requires forall i: nat :: i < n && i != k ==> f(i) == r.zero
    ensures Sum(r, f, n) == f(k)
  {
    if k == n - 1 {
      SumZero(r, f, n - 1);
      assert r.AddLaws(f(k), r.zero, r.zero);
    } else {
      SumSingle(r, f, n - 1, k);
      assert r.AddLaws(f(k), r.zero, r.zero);
    }
  }

  /** Exchanging the order of a double sum. */
  lemma {:induction false} SumSwap<T(!new)>(r: Ring<T>, f: (nat, nat) -> T, m: nat, n: nat)
    requires IsCommutativeRing(r)
    ensures Sum(r, (i: nat) => Sum(r, (j: nat) => f(i, j), n), m)
         == Sum(r, (j: nat) => Sum(r, (i: nat) => f(i, j), m), n)
  {
    var byColumn := (j: nat) => Sum(r, (i: nat) => f(i, j), m);
    if m == 0 {
      SumZero(r, byColumn, n);
    } else {
      SumSwap(r, f, m - 1, n);
      var shorter := (j: nat) => Sum(r, (i: nat) => f(i, j), m - 1);
      var last := (j: nat) => f(m - 1, j);
      var rows := (i: nat) => Sum(r, (j: nat) => f(i, j), n);
      SumAdd(r, shorter, last, byColumn, n);
      SumExt(r, (j: nat) => f(m - 1, j), last, n);
      assert rows(m - 1) == Sum(r, last, n);
    }
  }
}
