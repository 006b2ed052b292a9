/** The primes from 2 to 311, from which SHA-256 takes its constants. */
module Primes {

  import opened PowersOfTwo

  /** Eight to a row. */
  function PrimeRow(r: nat): (p: seq<nat>)
    requires r < 8
    ensures |p| == 8
  {
    match r
    case 0 => [2, 3, 5, 7, 11, 13, 17, 19]
    case 1 => [23, 29, 31, 37, 41, 43, 47, 53]
    case 2 => [59, 61, 67, 71, 73, 79, 83, 89]
    case 3 => [97, 101, 103, 107, 109, 113, 127, 131]
    case 4 => [137, 139, 149, 151, 157, 163, 167, 173]
    case 5 => [179, 181, 191, 193, 197, 199, 211, 223]
    case 6 => [227, 229, 233, 239, 241, 251, 257, 263]
    case _ => [269, 271, 277, 281, 283, 293, 307, 311]
  }

  function PrimeAt(t: nat): nat
    requires t < 64
  {
    PrimeRow(t / 8)[t % 8]
  }

  ghost predicate IsPrime(p: nat) { p > 1 && forall d: nat, e: nat :: d > 1 && e > 1 ==> d * e != p }

  /** No prime below 18 divides it, unless it is that prime. */
  predicate Sieved(p: nat) {
    && p > 1
    && (p == 2 || p % 2 != 0) && (p == 3 || p % 3 != 0) && (p == 5 || p % 5 != 0) && (p == 7 || p % 7 != 0)
    && (p == 11 || p % 11 != 0) && (p == 13 || p % 13 != 0) && (p == 17 || p % 17 != 0)
  }

  lemma SievedIsPrime(p: nat)
    requires p < 324
    ensures Sieved(p) ==> IsPrime(p)
  {
    if Sieved(p) {
      forall d: nat, e: nat | d > 1 && e > 1 ensures d * e != p {
        NotProduct(p, d, e);
      }
    }
  }

  lemma NotProduct(p: nat, d: nat, e: nat)
    requires p < 324 && Sieved(p) && d > 1 && e > 1
    ensures d * e != p
  {
    hide Sieved;
    if d * e == p {
      var low, high := if d <= e then d else e, if d <= e then e else d;
      assert low * high == p;
      Small(low, high);
      var q := SmallFactor(low);
      Divides(p, q, low / q, high);
      NotSieved(p, q);
    }
  }

  /** A number below 18 has a prime factor below 18. */
  lemma SmallFactor(n: nat) returns (q: nat)
    requires 1 < n < 18
    ensures q in {2, 3, 5, 7, 11, 13, 17} && n / q > 0 && q * (n / q) == n
  {
    q := if n % 2 == 0 then 2 else if n % 3 == 0 then 3 else n;
  }

  lemma Small(low: nat, high: nat)
    requires low <= high && low * high < 324
    ensures low < 18
  {
    if low >= 18 {
      MulLe(18, low, high);
    }
  }

  lemma NotSieved(p: nat, q: nat)
    requires q in {2, 3, 5, 7, 11, 13, 17} && p % q == 0 && p != q
    ensures !Sieved(p)
  {
  }

  lemma Divides(p: nat, q: nat, r: nat, high: nat)
    requires q > 1 && r > 0 && high > 1 && q * r * high == p
    ensures p % q == 0 && p > q
  {
    assert q * r * high == r * high * q;
    DivModUnique(p, q, r * high, 0);
    MulLe(1, r, high);
    MulLe(2, r * high, q);
  }

  lemma RowSieved(r: nat, c: nat)
    requires r < 8 && c < 8
    ensures Sieved(PrimeRow(r)[c]) && PrimeRow(r)[c] < 324
  {
    match r
    case 0 => case 1 => case 2 => case 3 =>
    case 4 => case 5 => case 6 => case _ =>
  }

  /** Every entry of the table is prime. */
  lemma EntryIsPrime(t: nat)
    requires t < 64
    ensures IsPrime(PrimeAt(t))
  {
    hide Sieved, IsPrime, PrimeRow;
    RowSieved(t / 8, t % 8);
    SievedIsPrime(PrimeAt(t));
  }

  /** The entries ascend from 2 to 311. */
  lemma EntriesAscend(t: nat)
    requires t < 63
    ensures PrimeAt(t) < PrimeAt(t + 1) && PrimeAt(0) == 2 && PrimeAt(63) == 311
  {
    var r, c := t / 8, t % 8;
    if c < 7 {
      assert (t + 1) / 8 == r && (t + 1) % 8 == c + 1;
    } else {
      assert (t + 1) / 8 == r + 1 && (t + 1) % 8 == 0;
    }
  }
}
