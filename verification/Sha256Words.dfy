/** The word functions and constants of the SHA-256 of sim/sw/sha256/sha256.c, bit by bit as section
    4.1.2 of FIPS 180-4 describes them. */
module Sha256Words {

  function Rotr32(x: bv32, n: bv32): bv32
    requires 0 < n < 32
  {
    (x >> n) | (x << (32 - n))
  }

  function Ch(x: bv32, y: bv32, z: bv32): bv32 { (x & y) ^ (!x & z) }

  function Maj(x: bv32, y: bv32, z: bv32): bv32 { (x & y) ^ (x & z) ^ (y & z) }

  function BigSigma0(x: bv32): bv32 { Rotr32(x, 2) ^ Rotr32(x, 13) ^ Rotr32(x, 22) }

  function BigSigma1(x: bv32): bv32 { Rotr32(x, 6) ^ Rotr32(x, 11) ^ Rotr32(x, 25) }

  function SmallSigma0(x: bv32): bv32 { Rotr32(x, 7) ^ Rotr32(x, 18) ^ (x >> 3) }

  function SmallSigma1(x: bv32): bv32 { Rotr32(x, 17) ^ Rotr32(x, 19) ^ (x >> 10) }

  /** A shift by n drops the lowest n bits. */
  lemma ShiftMovesBits(x: bv32, n: bv32, i: bv32)
    requires n < 32 && i < 32
    ensures i + n < 32 ==> ((x >> n) >> i) & 1 == (x >> (i + n)) & 1
    ensures i + n >= 32 ==> ((x >> n) >> i) & 1 == 0
  {
  }

  lemma RotateLowBits(x: bv32, n: bv32, i: bv32)
    requires 0 < n < 32 && i < 32 && i + n < 32
    ensures (Rotr32(x, n) >> i) & 1 == (x >> (i + n)) & 1
  {
    ShiftMovesBits(x, n, i);
    NoLowBits(x, 32 - n, i);
    OrBits(x >> n, x << (32 - n), i);
  }

  lemma NoLowBits(x: bv32, m: bv32, i: bv32)
    requires i < m < 32
    ensures ((x << m) >> i) & 1 == 0
  {
  }

  lemma OrBits(a: bv32, b: bv32, i: bv32)
    requires i < 32
    ensures ((a | b) >> i) & 1 == ((a >> i) & 1) | ((b >> i) & 1)
  {
  }

  lemma RotateHighBits(x: bv32, n: bv32, i: bv32)
    requires 0 < n < 32 && i < 32 && i + n >= 32
    ensures (Rotr32(x, n) >> i) & 1 == (x >> (i + n - 32)) & 1
  {
  }

  lemma Wraps(i: bv32, n: bv32)
    requires i < 32 && n < 32
    ensures (i + n) % 32 == if i + n < 32 then i + n else i + n - 32
  {
  }

  /** Bit i of a rotation by n is bit i + n, modulo 32. */
  lemma RotateMovesBits(x: bv32, n: bv32, i: bv32)
    requires 0 < n < 32 && i < 32
    ensures (Rotr32(x, n) >> i) & 1 == (x >> ((i + n) % 32)) & 1
  {
    hide Rotr32;
    Wraps(i, n);
    if i + n < 32 {
      RotateLowBits(x, n, i);
    } else {
      RotateHighBits(x, n, i);
    }
  }

  lemma XorBits(a: bv32, b: bv32, c: bv32, i: bv32)
    requires i < 32
    ensures ((a ^ b ^ c) >> i) & 1 == ((a >> i) & 1) ^ ((b >> i) & 1) ^ ((c >> i) & 1)
  {
  }

  lemma BigSigma0Bits(x: bv32, i: bv32)
    requires i < 32
    ensures (BigSigma0(x) >> i) & 1
      == ((x >> ((i + 2) % 32)) & 1) ^ ((x >> ((i + 13) % 32)) & 1) ^ ((x >> ((i + 22) % 32)) & 1)
  {
    RotateMovesBits(x, 2, i);
    RotateMovesBits(x, 13, i);
    RotateMovesBits(x, 22, i);
    hide Rotr32;
    XorBits(Rotr32(x, 2), Rotr32(x, 13), Rotr32(x, 22), i);
  }

  lemma BigSigma1Bits(x: bv32, i: bv32)
    requires i < 32
    ensures (BigSigma1(x) >> i) & 1
      == ((x >> ((i + 6) % 32)) & 1) ^ ((x >> ((i + 11) % 32)) & 1) ^ ((x >> ((i + 25) % 32)) & 1)
  {
    RotateMovesBits(x, 6, i);
    RotateMovesBits(x, 11, i);
    RotateMovesBits(x, 25, i);
    hide Rotr32;
    XorBits(Rotr32(x, 6), Rotr32(x, 11), Rotr32(x, 25), i);
  }

  lemma SmallSigma0Bits(x: bv32, i: bv32)
    requires i < 32
    ensures (SmallSigma0(x) >> i) & 1
      == ((x >> ((i + 7) % 32)) & 1) ^ ((x >> ((i + 18) % 32)) & 1) ^ (if i < 29 then (x >> (i + 3)) & 1 else 0)
  {
    RotateMovesBits(x, 7, i);
    RotateMovesBits(x, 18, i);
    ShiftMovesBits(x, 3, i);
    hide Rotr32;
    XorBits(Rotr32(x, 7), Rotr32(x, 18), x >> 3, i);
  }

  lemma SmallSigma1Bits(x: bv32, i: bv32)
    requires i < 32
    ensures (SmallSigma1(x) >> i) & 1
      == ((x >> ((i + 17) % 32)) & 1) ^ ((x >> ((i + 19) % 32)) & 1) ^ (if i < 22 then (x >> (i + 10)) & 1 else 0)
  {
    RotateMovesBits(x, 17, i);
    RotateMovesBits(x, 19, i);
    ShiftMovesBits(x, 10, i);
    hide Rotr32;
    XorBits(Rotr32(x, 17), Rotr32(x, 19), x >> 10, i);
  }

  /** Ch takes the second word where the first is set and the third where it is not. */
  lemma Chooses(x: bv32, y: bv32, z: bv32)
    ensures Ch(x, y, z) & x == y & x && Ch(x, y, z) & !x == z & !x
  {
  }

  /** Maj takes the first two words where they agree and the third where they do not. */
  lemma TakesMajority(x: bv32, y: bv32, z: bv32)
    ensures Maj(x, y, z) & !(x ^ y) == x & !(x ^ y) && Maj(x, y, z) & (x ^ y) == z & (x ^ y)
  {
  }

  /** The round constants, eight to a row. */
  function KRow(r: nat): (k: seq<bv32>)
    requires r < 8
    ensures |k| == 8
  {
    match r
    case 0 => [0x428a2f98, 0x71374491, 0xb5c0fbcf, 0xe9b5dba5, 0x3956c25b, 0x59f111f1, 0x923f82a4, 0xab1c5ed5]
    case 1 => [0xd807aa98, 0x12835b01, 0x243185be, 0x550c7dc3, 0x72be5d74, 0x80deb1fe, 0x9bdc06a7, 0xc19bf174]
    case 2 => [0xe49b69c1, 0xefbe4786, 0x0fc19dc6, 0x240ca1cc, 0x2de92c6f, 0x4a7484aa, 0x5cb0a9dc, 0x76f988da]
    case 3 => [0x983e5152, 0xa831c66d, 0xb00327c8, 0xbf597fc7, 0xc6e00bf3, 0xd5a79147, 0x06ca6351, 0x14292967]
    case 4 => [0x27b70a85, 0x2e1b2138, 0x4d2c6dfc, 0x53380d13, 0x650a7354, 0x766a0abb, 0x81c2c92e, 0x92722c85]
    case 5 => [0xa2bfe8a1, 0xa81a664b, 0xc24b8b70, 0xc76c51a3, 0xd192e819, 0xd6990624, 0xf40e3585, 0x106aa070]
    case 6 => [0x19a4c116, 0x1e376c08, 0x2748774c, 0x34b0bcb5, 0x391c0cb3, 0x4ed8aa4a, 0x5b9cca4f, 0x682e6ff3]
    case _ => [0x748f82ee, 0x78a5636f, 0x84c87814, 0x8cc70208, 0x90befffa, 0xa4506ceb, 0xbef9a3f7, 0xc67178f2]
  }

  function K(t: nat): bv32
    requires t < 64
  {
    KRow(t / 8)[t % 8]
  }
}
