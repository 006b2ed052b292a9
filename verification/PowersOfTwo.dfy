/** Powers of two, division by them, and bit reversal: the integer facts behind the
    shifts and masks of the FFT schedule. */
module PowersOfTwo {

  function Pow2(n: nat): (r: nat)
    ensures r > 0
  {
    if n == 0 then 1 else 2 * Pow2(n - 1)
  }

  lemma {:induction false} Pow2Add(a: nat, b: nat)
    ensures Pow2(a + b) == Pow2(a) * Pow2(b)
  {
    if a == 0 {
    } else {
      Pow2Add(a - 1, b);
      assert a + b - 1 == (a - 1) + b;
      assert 2 * (Pow2(a - 1) * Pow2(b)) == (2 * Pow2(a - 1)) * Pow2(b);
    }
  }

  lemma DivMul(q: nat, d: nat)
    requires d > 0
    ensures (q * d) / d == q && (q * d) % d == 0
  {
    DivModUnique(q * d, d, q, 0);
  }

  /** Quotient and remainder are the only pair of their kind. */
  lemma DivModUnique(x: int, d: int, q: int, r: int)
    requires d > 0 && x == q * d + r && 0 <= r < d
    ensures x / d == q && x % d == r
  {
    var q', r' := x / d, x % d;
    assert (q - q') * d == r' - r;
    assert q == q' by {
      if q > q' {
        MulAtLeast(q - q', d);
      } else if q < q' {
        MulAtLeast(q' - q, d);
      }
    }
  }

  lemma MulAtLeast(k: int, d: int)
    requires k >= 1 && d >= 0
    ensures k * d >= d
  {
    assert k * d == (k - 1) * d + d;
  }

  lemma MulLe(a: int, b: int, d: int)
    requires a <= b && d >= 0
    ensures a * d <= b * d
  {
    assert (b - a) * d == b * d - a * d;
  }

  lemma Pow2Quotient(a: nat, b: nat)
    requires b <= a
    ensures Pow2(a) / Pow2(b) == Pow2(a - b)
  {
    Pow2Add(a - b, b);
    DivMul(Pow2(a - b), Pow2(b));
  }

  lemma NextBit(x: nat, i: nat)
    ensures x / Pow2(i) / 2 == x / Pow2(i + 1)
  {
    var d := Pow2(i);
    var q, r := x / d, x % d;
    assert x == q * d + r;
    assert q * d == (q / 2) * (2 * d) + (q % 2) * d by {
      assert q == 2 * (q / 2) + q % 2;
      assert (2 * (q / 2) + q % 2) * d == 2 * (q / 2) * d + (q % 2) * d;
    }
    assert 0 <= (q % 2) * d + r < 2 * d by { if q % 2 == 0 {} else { assert q % 2 == 1; } }
    DivModUnique(x, 2 * d, q / 2, (q % 2) * d + r);
  }

  predicate IsByte(b: int) { 0 <= b < 256 }

  predicate IsInt16(v: int) { -0x8000 <= v < 0x8000 }

  /** Bit i of b. */
  function BitOf(b: int, i: nat): bool { b / Pow2(i) % 2 == 1 }

  /** The low n bits of x, in reverse order. */
  function BitRev(x: nat, n: nat): (r: nat)
    ensures r < Pow2(n)
  {
    if n == 0 then 0 else (if x % 2 == 1 then Pow2(n - 1) else 0) + BitRev(x / 2, n - 1)
  }

  /** Peeling the top bit instead of the bottom one. */
  lemma {:induction false} BitRevTop(x: nat, n: nat)
    requires n > 0 && x < Pow2(n)
    ensures BitRev(x, n) == 2 * BitRev(x % Pow2(n - 1), n - 1) + x / Pow2(n - 1)
  {
    if n == 1 {
    } else {
      var h := Pow2(n - 2);
      var bit, y := x % 2, x / 2;
      BitRevTop(y, n - 1);
      var q := if y < h then 0 else 1;
      var r := if y < h then y else y - h;
      DivModUnique(y, h, q, r);
      DivModUnique(x, 2 * h, q, 2 * r + bit);
      BitRevStep(r, bit, n - 1);
    }
  }

  lemma BitRevStep(y: nat, bit: nat, n: nat)
    requires n > 0 && bit < 2
    ensures BitRev(2 * y + bit, n) == (if bit == 1 then Pow2(n - 1) else 0) + BitRev(y, n - 1)
  {
    assert (2 * y + bit) % 2 == bit && (2 * y + bit) / 2 == y;
  }

  lemma {:induction false} BitRevInvolution(x: nat, n: nat)
    requires x < Pow2(n)
    ensures BitRev(BitRev(x, n), n) == x
  {
    if n == 0 {
    } else {
      var h := Pow2(n - 1);
      var y := BitRev(x / 2, n - 1);
      BitRevInvolution(x / 2, n - 1);
      DivModUnique(BitRev(x, n), h, x % 2, y);
      BitRevTop(BitRev(x, n), n);
    }
  }
}
