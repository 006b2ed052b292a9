/** Where the constants of SHA-256 come from, sections 4.2.2 and 5.3.3 of FIPS 180-4: the first 32 bits
    of the fractional parts of the cube roots of the first 64 primes, and of the square roots of the
    first eight. */
module Sha256Constants {

  import opened Primes
  import opened Sha256Words
  import opened Sha256

  /** n / 2^32 is the cube root of p, cut off behind 32 fractional bits. */
  predicate CubeRoot(p: nat, n: nat) {
    n * n * n <= p * 0x1_0000_0000_0000_0000_0000_0000 < (n + 1) * (n + 1) * (n + 1)
  }

  predicate SquareRoot(p: nat, n: nat) {
    n * n <= p * 0x1_0000_0000_0000_0000 < (n + 1) * (n + 1)
  }

  lemma Cubes(p: nat, n: nat)
    requires n * n * n <= p * 0x1_0000_0000_0000_0000_0000_0000 < (n + 1) * (n + 1) * (n + 1)
    ensures CubeRoot(p, n)
  {
  }

  /** The whole part of the cube root of a number below 343. */
  function WholeCube(p: nat): nat {
    if p < 8 then 1 else if p < 27 then 2 else if p < 64 then 3 else if p < 125 then 4 else if p < 216 then 5 else 6
  }

  lemma LowRoots(r: nat, c: nat)
    requires r < 4 && c < 8
    ensures var p := PrimeRow(r)[c]; CubeRoot(p, WholeCube(p) * 0x1_0000_0000 + KRow(r)[c] as nat)
  {
    hide CubeRoot;
    match r
    case 0 =>
      Cubes(2, 0x1_428a_2f98); Cubes(3, 0x1_7137_4491); Cubes(5, 0x1_b5c0_fbcf); Cubes(7, 0x1_e9b5_dba5);
      Cubes(11, 0x2_3956_c25b); Cubes(13, 0x2_59f1_11f1); Cubes(17, 0x2_923f_82a4); Cubes(19, 0x2_ab1c_5ed5);
    case 1 =>
      Cubes(23, 0x2_d807_aa98); Cubes(29, 0x3_1283_5b01); Cubes(31, 0x3_2431_85be); Cubes(37, 0x3_550c_7dc3);
      Cubes(41, 0x3_72be_5d74); Cubes(43, 0x3_80de_b1fe); Cubes(47, 0x3_9bdc_06a7); Cubes(53, 0x3_c19b_f174);
    case 2 =>
      Cubes(59, 0x3_e49b_69c1); Cubes(61, 0x3_efbe_4786); Cubes(67, 0x4_0fc1_9dc6); Cubes(71, 0x4_240c_a1cc);
      Cubes(73, 0x4_2de9_2c6f); Cubes(79, 0x4_4a74_84aa); Cubes(83, 0x4_5cb0_a9dc); Cubes(89, 0x4_76f9_88da);
    case _ =>
      Cubes(97, 0x4_983e_5152); Cubes(101, 0x4_a831_c66d); Cubes(103, 0x4_b003_27c8); Cubes(107, 0x4_bf59_7fc7);
      Cubes(109, 0x4_c6e0_0bf3); Cubes(113, 0x4_d5a7_9147); Cubes(127, 0x5_06ca_6351); Cubes(131, 0x5_1429_2967);
  }

  lemma HighRoots(r: nat, c: nat)
    requires 4 <= r < 8 && c < 8
    ensures var p := PrimeRow(r)[c]; CubeRoot(p, WholeCube(p) * 0x1_0000_0000 + KRow(r)[c] as nat)
  {
    hide CubeRoot;
    match r
    case 4 =>
      Cubes(137, 0x5_27b7_0a85); Cubes(139, 0x5_2e1b_2138); Cubes(149, 0x5_4d2c_6dfc); Cubes(151, 0x5_5338_0d13);
      Cubes(157, 0x5_650a_7354); Cubes(163, 0x5_766a_0abb); Cubes(167, 0x5_81c2_c92e); Cubes(173, 0x5_9272_2c85);
    case 5 =>
      Cubes(179, 0x5_a2bf_e8a1); Cubes(181, 0x5_a81a_664b); Cubes(191, 0x5_c24b_8b70); Cubes(193, 0x5_c76c_51a3);
      Cubes(197, 0x5_d192_e819); Cubes(199, 0x5_d699_0624); Cubes(211, 0x5_f40e_3585); Cubes(223, 0x6_106a_a070);
    case 6 =>
      Cubes(227, 0x6_19a4_c116); Cubes(229, 0x6_1e37_6c08); Cubes(233, 0x6_2748_774c); Cubes(239, 0x6_34b0_bcb5);
      Cubes(241, 0x6_391c_0cb3); Cubes(251, 0x6_4ed8_aa4a); Cubes(257, 0x6_5b9c_ca4f); Cubes(263, 0x6_682e_6ff3);
    case _ =>
      Cubes(269, 0x6_748f_82ee); Cubes(271, 0x6_78a5_636f); Cubes(277, 0x6_84c8_7814); Cubes(281, 0x6_8cc7_0208);
      Cubes(283, 0x6_90be_fffa); Cubes(293, 0x6_a450_6ceb); Cubes(307, 0x6_bef9_a3f7); Cubes(311, 0x6_c671_78f2);
  }

  lemma RowOfRoots(r: nat, c: nat)
    requires r < 8 && c < 8
    ensures var p := PrimeRow(r)[c]; CubeRoot(p, WholeCube(p) * 0x1_0000_0000 + KRow(r)[c] as nat)
  {
    if r < 4 {
      LowRoots(r, c);
    } else {
      HighRoots(r, c);
    }
  }

  /** Constant t is the fraction of the cube root of the t-th prime. */
  lemma KIsCubeRoot(t: nat)
    requires t < 64
    ensures var p := PrimeAt(t); CubeRoot(p, WholeCube(p) * 0x1_0000_0000 + K(t) as nat)
  {
    RowOfRoots(t / 8, t % 8);
  }

  /** The first hash value holds the fractions of the square roots of the first eight primes. */
  lemma InitialIsSquareRoots()
    ensures var h := Initial();
      && SquareRoot(2, 0x1_0000_0000 + h.a as nat) && SquareRoot(3, 0x1_0000_0000 + h.b as nat)
      && SquareRoot(5, 0x2_0000_0000 + h.c as nat) && SquareRoot(7, 0x2_0000_0000 + h.d as nat)
      && SquareRoot(11, 0x3_0000_0000 + h.e as nat) && SquareRoot(13, 0x3_0000_0000 + h.f as nat)
      && SquareRoot(17, 0x4_0000_0000 + h.g as nat) && SquareRoot(19, 0x4_0000_0000 + h.h as nat)
  {
  }
}
