/** The digest that the header of sim/sw/sha256/sha256.c gives as its example, word by word: a message
    of one block, its schedule eight words at a time, and its 64 rounds. */
module Sha256Example {

  import opened Sha256Words
  import opened Sha256

  /** "hello" */
  const HELLO: seq<bv8> := [0x68, 0x65, 0x6c, 0x6c, 0x6f]

  // ------------------------------------------------------------ the message schedule

  datatype Eight = Eight(w0: bv32, w1: bv32, w2: bv32, w3: bv32, w4: bv32, w5: bv32, w6: bv32, w7: bv32)

  /** Words t to t + 7 of the schedule. */
  ghost predicate Row(b: Block, t: nat, w: Eight)
    requires t <= 56
  {
    && Scheduled(b, t) == w.w0 && Scheduled(b, t + 1) == w.w1
    && Scheduled(b, t + 2) == w.w2 && Scheduled(b, t + 3) == w.w3
    && Scheduled(b, t + 4) == w.w4 && Scheduled(b, t + 5) == w.w5
    && Scheduled(b, t + 6) == w.w6 && Scheduled(b, t + 7) == w.w7
  }

  /** The eight words behind two rows. */
  function NextRow(u: Eight, v: Eight): Eight {
    var w0 := Extended(v.w6, v.w1, u.w1, u.w0);
    var w1 := Extended(v.w7, v.w2, u.w2, u.w1);
    var w2 := Extended(w0, v.w3, u.w3, u.w2);
    var w3 := Extended(w1, v.w4, u.w4, u.w3);
    var w4 := Extended(w2, v.w5, u.w5, u.w4);
    var w5 := Extended(w3, v.w6, u.w6, u.w5);
    var w6 := Extended(w4, v.w7, u.w7, u.w6);
    var w7 := Extended(w5, w0, v.w0, u.w7);
    Eight(w0, w1, w2, w3, w4, w5, w6, w7)
  }

  lemma RowFollows(b: Block, t: nat, u: Eight, v: Eight)
    requires t <= 40 && Row(b, t, u) && Row(b, t + 8, v)
    ensures Row(b, t + 16, NextRow(u, v))
  {
    hide Extended, BigEndian;
    var n := NextRow(u, v);
    assert Scheduled(b, t + 16) == n.w0 && Scheduled(b, t + 17) == n.w1;
    assert Scheduled(b, t + 18) == n.w2 && Scheduled(b, t + 19) == n.w3;
    assert Scheduled(b, t + 20) == n.w4 && Scheduled(b, t + 21) == n.w5;
    assert Scheduled(b, t + 22) == n.w6 && Scheduled(b, t + 23) == n.w7;
  }

  ghost predicate IsHelloBlock(b: Block) {
    && b[..6] == HELLO + [0x80] && b[56..] == [0, 0, 0, 0, 0, 0, 0, 40]
    && forall i :: 6 <= i < 56 ==> b[i] == 0
  }

  function HelloRow(r: nat): Eight
    requires r < 8
  {
    match r
    case 0 => Eight(0x68656c6c, 0x6f800000, 0x00000000, 0x00000000, 0x00000000, 0x00000000, 0x00000000, 0x00000000)
    case 1 => Eight(0x00000000, 0x00000000, 0x00000000, 0x00000000, 0x00000000, 0x00000000, 0x00000000, 0x00000028)
    case 2 => Eight(0x7594884c, 0x6f910000, 0xd532d15a, 0xa01bde7a, 0x32b37c8b, 0x94da02f9, 0xd1d853f8, 0xb69b56c2)
    case 3 => Eight(0x934804c3, 0x96c77ca5, 0xa2f94846, 0x849744ef, 0x21dd3e6a, 0x1ca36b00, 0x3f957a61, 0x2079cf86)
    case 4 => Eight(0x6bfc7c3b, 0x0c209d4b, 0x2228225c, 0xee1ad25b, 0xc5d09850, 0x07331882, 0x977423c5, 0xa667d6f9)
    case 5 => Eight(0xbc044b46, 0x95859031, 0x5c98ca62, 0x64860c1b, 0x7ee7c777, 0x16c55872, 0x7cf67d29, 0x4857c138)
    case 6 => Eight(0xa37f4a81, 0x35f8fd03, 0xf16ffce2, 0x6d549f9c, 0xa12ff314, 0xf1818db4, 0xf9cad136, 0xc960d70c)
    case _ => Eight(0x3a18f5f8, 0xf5fdf2ba, 0xe79a1b2a, 0x5dea4345, 0x701cc2f2, 0x3c9b25e2, 0xc9670b22, 0x3e3cb561)
  }

  lemma FirstRows(b: Block)
    requires IsHelloBlock(b)
    ensures Row(b, 0, HelloRow(0)) && Row(b, 8, HelloRow(1))
  {
  }

  lemma RowComputes(r: nat)
    requires r < 6
    ensures NextRow(HelloRow(r), HelloRow(r + 1)) == HelloRow(r + 2)
  {
    match r
    case 0 => assert NextRow(HelloRow(0), HelloRow(1)) == HelloRow(2);
    case 1 => assert NextRow(HelloRow(1), HelloRow(2)) == HelloRow(3);
    case 2 => assert NextRow(HelloRow(2), HelloRow(3)) == HelloRow(4);
    case 3 => assert NextRow(HelloRow(3), HelloRow(4)) == HelloRow(5);
    case 4 => assert NextRow(HelloRow(4), HelloRow(5)) == HelloRow(6);
    case _ => assert NextRow(HelloRow(5), HelloRow(6)) == HelloRow(7);
  }

  lemma {:induction false} HelloSchedule(b: Block, r: nat)
    requires IsHelloBlock(b) && r < 8
    ensures Row(b, 8 * r, HelloRow(r))
  {
    hide HelloRow, Row, NextRow, IsHelloBlock;
    if r < 2 {
      FirstRows(b);
    } else {
      HelloSchedule(b, r - 2);
      HelloSchedule(b, r - 1);
      RowFollows(b, 8 * (r - 2), HelloRow(r - 2), HelloRow(r - 1));
      RowComputes(r - 2);
    }
  }

  // ------------------------------------------------------------ the rounds

  /** Round t, whose two new words are a and e. */
  lemma Step(b: Block, t: nat, s: State, k: bv32, w: bv32, a: bv32, e: bv32) returns (r: State)
    requires t < 64 && Rounds(Initial(), b, t) == s && K(t) == k && Scheduled(b, t) == w
    requires Sum(T1(s.e, s.f, s.g, s.h, k, w), T2(s.a, s.b, s.c)) == a
    requires Sum(s.d, T1(s.e, s.f, s.g, s.h, k, w)) == e
    ensures r == State(a, s.a, s.b, s.c, e, s.e, s.f, s.g) == Rounds(Initial(), b, t + 1)
  {
    hide Scheduled, K, Initial;
    r := Round(s, k, w);
  }

  // The state after every fourth round.
  const S_0 := State(0x6a09e667, 0xbb67ae85, 0x3c6ef372, 0xa54ff53a, 0x510e527f, 0x9b05688c, 0x1f83d9ab, 0x5be0cd19)
  const S_4 := State(0xa9531869, 0x46a5c0f7, 0xa01b3ad4, 0x646df4b9, 0x6e1e75d2, 0x0fbadb9b, 0x27198bd1, 0x012d4f0e)
  const S_8 := State(0x5619fea2, 0x42d8c3cf, 0x3b4760cd, 0xcbfa8346, 0x05cf37fe, 0x88f04d94, 0xcca93710, 0xaadd34e3)
  const S_12 := State(0x6870e01d, 0x7ee16f95, 0x40a321c6, 0x85d98858, 0xd2fbbbd6, 0x6a82b638, 0x2f7d88fc, 0xf80be290)
  const S_16 := State(0x55bd9162, 0x8d786e86, 0x99449713, 0x38f5bce3, 0xede948a5, 0x87538883, 0x611ea7ce, 0xbc76d585)
  const S_20 := State(0xf6d68629, 0x70846845, 0x63422d1c, 0x99619a3e, 0xcba8637f, 0x34135cb2, 0x6d48d223, 0x4ca27f3d)
  const S_24 := State(0x159a7e81, 0xbdf9ec82, 0xb5e00e53, 0xa00f40bf, 0x29ae19ff, 0x59db6c49, 0x579fcc6d, 0xafc7fe0b)
  const S_28 := State(0x00c0ff8a, 0xbf9f575e, 0xc87696cf, 0xddc63841, 0xd03613e9, 0x018a2bf9, 0x32ddc14b, 0xef48d358)
  const S_32 := State(0x033c17ef, 0xc44c9f98, 0x0d94f00c, 0xc4b9f5b9, 0x3fb4bb4e, 0xae95a0dc, 0x163acf8e, 0x9a0b4446)
  const S_36 := State(0xfc56d2b8, 0x3cd610cb, 0x7a71b325, 0x7cc76ada, 0x718c696b, 0x853251c7, 0x6f712dd9, 0xac7c28f0)
  const S_40 := State(0x4b80a310, 0xa3c3854f, 0xcccf6cff, 0x9b547889, 0xef774739, 0x5ac4daea, 0x976eecaf, 0xaa2c9ad1)
  const S_44 := State(0x0b63d3f9, 0xc05ec85d, 0x5ebef098, 0xf31343b7, 0x3aecee8c, 0x9fe04171, 0x9b9542c5, 0xb9b5e0f2)
  const S_48 := State(0x92aaef10, 0xf5e75fc1, 0xb7182ef2, 0xda1b95a3, 0x88ea2409, 0x6042168a, 0x15ac92b5, 0x3050bcb4)
  const S_52 := State(0xce9f8e65, 0x5e6a13a9, 0xa20fa1b5, 0x83f8ecc0, 0x7c410911, 0x75fe5742, 0x1ff3b9ef, 0xaed7a5ba)
  const S_56 := State(0x335e273d, 0xa87fa1ef, 0x5ae0dba6, 0x952fe02e, 0x4da8becd, 0x5f5572ee, 0x0301100e, 0xcc6948ea)
  const S_60 := State(0x96168426, 0x651a8bfa, 0x51b087fc, 0x4af4f18a, 0xdb09c3ab, 0xd01428f0, 0xb4e97f05, 0x98034616)
  const S_64 := State(0xc2e86753, 0xa448f489, 0xea7947b8, 0x2069ed64, 0xca07cbdd, 0x84a1d9d2, 0x538059b7, 0x37aacb0b)

  lemma Rounds0To4(b: Block)
    requires Row(b, 0, HelloRow(0))
    requires Rounds(Initial(), b, 0) == S_0
    ensures Rounds(Initial(), b, 4) == S_4
  {
    hide Rounds, Scheduled, Initial;
    var s := Rounds(Initial(), b, 0);
    s := Step(b, 0, s, 0x428a2f98, 0x68656c6c, 0x646df4b9, 0x012d4f0e);
    s := Step(b, 1, s, 0x71374491, 0x6f800000, 0xa01b3ad4, 0x27198bd1);
    s := Step(b, 2, s, 0xb5c0fbcf, 0x00000000, 0x46a5c0f7, 0x0fbadb9b);
    s := Step(b, 3, s, 0xe9b5dba5, 0x00000000, 0xa9531869, 0x6e1e75d2);
  }

  lemma Rounds4To8(b: Block)
    requires Row(b, 0, HelloRow(0))
    requires Rounds(Initial(), b, 4) == S_4
    ensures Rounds(Initial(), b, 8) == S_8
  {
    hide Rounds, Scheduled, Initial;
    var s := Rounds(Initial(), b, 4);
    s := Step(b, 4, s, 0x3956c25b, 0x00000000, 0xcbfa8346, 0xaadd34e3);
    s := Step(b, 5, s, 0x59f111f1, 0x00000000, 0x3b4760cd, 0xcca93710);
    s := Step(b, 6, s, 0x923f82a4, 0x00000000, 0x42d8c3cf, 0x88f04d94);
    s := Step(b, 7, s, 0xab1c5ed5, 0x00000000, 0x5619fea2, 0x05cf37fe);
  }

  lemma Rounds8To12(b: Block)
    requires Row(b, 8, HelloRow(1))
    requires Rounds(Initial(), b, 8) == S_8
    ensures Rounds(Initial(), b, 12) == S_12
  {
    hide Rounds, Scheduled, Initial;
    var s := Rounds(Initial(), b, 8);
    s := Step(b, 8, s, 0xd807aa98, 0x00000000, 0x85d98858, 0xf80be290);
    s := Step(b, 9, s, 0x12835b01, 0x00000000, 0x40a321c6, 0x2f7d88fc);
    s := Step(b, 10, s, 0x243185be, 0x00000000, 0x7ee16f95, 0x6a82b638);
    s := Step(b, 11, s, 0x550c7dc3, 0x00000000, 0x6870e01d, 0xd2fbbbd6);
  }

  lemma Rounds12To16(b: Block)
    requires Row(b, 8, HelloRow(1))
    requires Rounds(Initial(), b, 12) == S_12
    ensures Rounds(Initial(), b, 16) == S_16
  {
    hide Rounds, Scheduled, Initial;
    var s := Rounds(Initial(), b, 12);
    s := Step(b, 12, s, 0x72be5d74, 0x00000000, 0x38f5bce3, 0xbc76d585);
    s := Step(b, 13, s, 0x80deb1fe, 0x00000000, 0x99449713, 0x611ea7ce);
    s := Step(b, 14, s, 0x9bdc06a7, 0x00000000, 0x8d786e86, 0x87538883);
    s := Step(b, 15, s, 0xc19bf174, 0x00000028, 0x55bd9162, 0xede948a5);
  }

  lemma Rounds16To20(b: Block)
    requires Row(b, 16, HelloRow(2))
    requires Rounds(Initial(), b, 16) == S_16
    ensures Rounds(Initial(), b, 20) == S_20
  {
    hide Rounds, Scheduled, Initial;
    var s := Rounds(Initial(), b, 16);
    s := Step(b, 16, s, 0xe49b69c1, 0x7594884c, 0x99619a3e, 0x4ca27f3d);
    s := Step(b, 17, s, 0xefbe4786, 0x6f910000, 0x63422d1c, 0x6d48d223);
    s := Step(b, 18, s, 0x0fc19dc6, 0xd532d15a, 0x70846845, 0x34135cb2);
    s := Step(b, 19, s, 0x240ca1cc, 0xa01bde7a, 0xf6d68629, 0xcba8637f);
  }

  lemma Rounds20To24(b: Block)
    requires Row(b, 16, HelloRow(2))
    requires Rounds(Initial(), b, 20) == S_20
    ensures Rounds(Initial(), b, 24) == S_24
  {
    hide Rounds, Scheduled, Initial;
    var s := Rounds(Initial(), b, 20);
    s := Step(b, 20, s, 0x2de92c6f, 0x32b37c8b, 0xa00f40bf, 0xafc7fe0b);
    s := Step(b, 21, s, 0x4a7484aa, 0x94da02f9, 0xb5e00e53, 0x579fcc6d);
    s := Step(b, 22, s, 0x5cb0a9dc, 0xd1d853f8, 0xbdf9ec82, 0x59db6c49);
    s := Step(b, 23, s, 0x76f988da, 0xb69b56c2, 0x159a7e81, 0x29ae19ff);
  }

  lemma Rounds24To28(b: Block)
    requires Row(b, 24, HelloRow(3))
    requires Rounds(Initial(), b, 24) == S_24
    ensures Rounds(Initial(), b, 28) == S_28
  {
    hide Rounds, Scheduled, Initial;
    var s := Rounds(Initial(), b, 24);
    s := Step(b, 24, s, 0x983e5152, 0x934804c3, 0xddc63841, 0xef48d358);
    s := Step(b, 25, s, 0xa831c66d, 0x96c77ca5, 0xc87696cf, 0x32ddc14b);
    s := Step(b, 26, s, 0xb00327c8, 0xa2f94846, 0xbf9f575e, 0x018a2bf9);
    s := Step(b, 27, s, 0xbf597fc7, 0x849744ef, 0x00c0ff8a, 0xd03613e9);
  }

  lemma Rounds28To32(b: Block)
    requires Row(b, 24, HelloRow(3))
    requires Rounds(Initial(), b, 28) == S_28
    ensures Rounds(Initial(), b, 32) == S_32
  {
    hide Rounds, Scheduled, Initial;
    var s := Rounds(Initial(), b, 28);
    s := Step(b, 28, s, 0xc6e00bf3, 0x21dd3e6a, 0xc4b9f5b9, 0x9a0b4446);
    s := Step(b, 29, s, 0xd5a79147, 0x1ca36b00, 0x0d94f00c, 0x163acf8e);
    s := Step(b, 30, s, 0x06ca6351, 0x3f957a61, 0xc44c9f98, 0xae95a0dc);
    s := Step(b, 31, s, 0x14292967, 0x2079cf86, 0x033c17ef, 0x3fb4bb4e);
  }

  lemma Rounds32To36(b: Block)
    requires Row(b, 32, HelloRow(4))
    requires Rounds(Initial(), b, 32) == S_32
    ensures Rounds(Initial(), b, 36) == S_36
  {
    hide Rounds, Scheduled, Initial;
    var s := Rounds(Initial(), b, 32);
    s := Step(b, 32, s, 0x27b70a85, 0x6bfc7c3b, 0x7cc76ada, 0xac7c28f0);
    s := Step(b, 33, s, 0x2e1b2138, 0x0c209d4b, 0x7a71b325, 0x6f712dd9);
    s := Step(b, 34, s, 0x4d2c6dfc, 0x2228225c, 0x3cd610cb, 0x853251c7);
    s := Step(b, 35, s, 0x53380d13, 0xee1ad25b, 0xfc56d2b8, 0x718c696b);
  }

  lemma Rounds36To40(b: Block)
    requires Row(b, 32, HelloRow(4))
    requires Rounds(Initial(), b, 36) == S_36
    ensures Rounds(Initial(), b, 40) == S_40
  {
    hide Rounds, Scheduled, Initial;
    var s := Rounds(Initial(), b, 36);
    s := Step(b, 36, s, 0x650a7354, 0xc5d09850, 0x9b547889, 0xaa2c9ad1);
    s := Step(b, 37, s, 0x766a0abb, 0x07331882, 0xcccf6cff, 0x976eecaf);
    s := Step(b, 38, s, 0x81c2c92e, 0x977423c5, 0xa3c3854f, 0x5ac4daea);
    s := Step(b, 39, s, 0x92722c85, 0xa667d6f9, 0x4b80a310, 0xef774739);
  }

  lemma Rounds40To44(b: Block)
    requires Row(b, 40, HelloRow(5))
    requires Rounds(Initial(), b, 40) == S_40
    ensures Rounds(Initial(), b, 44) == S_44
  {
    hide Rounds, Scheduled, Initial;
    var s := Rounds(Initial(), b, 40);
    s := Step(b, 40, s, 0xa2bfe8a1, 0xbc044b46, 0xf31343b7, 0xb9b5e0f2);
    s := Step(b, 41, s, 0xa81a664b, 0x95859031, 0x5ebef098, 0x9b9542c5);
    s := Step(b, 42, s, 0xc24b8b70, 0x5c98ca62, 0xc05ec85d, 0x9fe04171);
    s := Step(b, 43, s, 0xc76c51a3, 0x64860c1b, 0x0b63d3f9, 0x3aecee8c);
  }

  lemma Rounds44To48(b: Block)
    requires Row(b, 40, HelloRow(5))
    requires Rounds(Initial(), b, 44) == S_44
    ensures Rounds(Initial(), b, 48) == S_48
  {
    hide Rounds, Scheduled, Initial;
    var s := Rounds(Initial(), b, 44);
    s := Step(b, 44, s, 0xd192e819, 0x7ee7c777, 0xda1b95a3, 0x3050bcb4);
    s := Step(b, 45, s, 0xd6990624, 0x16c55872, 0xb7182ef2, 0x15ac92b5);
    s := Step(b, 46, s, 0xf40e3585, 0x7cf67d29, 0xf5e75fc1, 0x6042168a);
    s := Step(b, 47, s, 0x106aa070, 0x4857c138, 0x92aaef10, 0x88ea2409);
  }

  lemma Rounds48To52(b: Block)
    requires Row(b, 48, HelloRow(6))
    requires Rounds(Initial(), b, 48) == S_48
    ensures Rounds(Initial(), b, 52) == S_52
  {
    hide Rounds, Scheduled, Initial;
    var s := Rounds(Initial(), b, 48);
    s := Step(b, 48, s, 0x19a4c116, 0xa37f4a81, 0x83f8ecc0, 0xaed7a5ba);
    s := Step(b, 49, s, 0x1e376c08, 0x35f8fd03, 0xa20fa1b5, 0x1ff3b9ef);
    s := Step(b, 50, s, 0x2748774c, 0xf16ffce2, 0x5e6a13a9, 0x75fe5742);
    s := Step(b, 51, s, 0x34b0bcb5, 0x6d549f9c, 0xce9f8e65, 0x7c410911);
  }

  lemma Rounds52To56(b: Block)
    requires Row(b, 48, HelloRow(6))
    requires Rounds(Initial(), b, 52) == S_52
    ensures Rounds(Initial(), b, 56) == S_56
  {
    hide Rounds, Scheduled, Initial;
    var s := Rounds(Initial(), b, 52);
    s := Step(b, 52, s, 0x391c0cb3, 0xa12ff314, 0x952fe02e, 0xcc6948ea);
    s := Step(b, 53, s, 0x4ed8aa4a, 0xf1818db4, 0x5ae0dba6, 0x0301100e);
    s := Step(b, 54, s, 0x5b9cca4f, 0xf9cad136, 0xa87fa1ef, 0x5f5572ee);
    s := Step(b, 55, s, 0x682e6ff3, 0xc960d70c, 0x335e273d, 0x4da8becd);
  }

  lemma Rounds56To60(b: Block)
    requires Row(b, 56, HelloRow(7))
    requires Rounds(Initial(), b, 56) == S_56
    ensures Rounds(Initial(), b, 60) == S_60
  {
    hide Rounds, Scheduled, Initial;
    var s := Rounds(Initial(), b, 56);
    s := Step(b, 56, s, 0x748f82ee, 0x3a18f5f8, 0x4af4f18a, 0x98034616);
    s := Step(b, 57, s, 0x78a5636f, 0xf5fdf2ba, 0x51b087fc, 0xb4e97f05);
    s := Step(b, 58, s, 0x84c87814, 0xe79a1b2a, 0x651a8bfa, 0xd01428f0);
    s := Step(b, 59, s, 0x8cc70208, 0x5dea4345, 0x96168426, 0xdb09c3ab);
  }

  lemma Rounds60To64(b: Block)
    requires Row(b, 56, HelloRow(7))
    requires Rounds(Initial(), b, 60) == S_60
    ensures Rounds(Initial(), b, 64) == S_64
  {
    hide Rounds, Scheduled, Initial;
    var s := Rounds(Initial(), b, 60);
    s := Step(b, 60, s, 0x90befffa, 0x701cc2f2, 0x2069ed64, 0x37aacb0b);
    s := Step(b, 61, s, 0xa4506ceb, 0x3c9b25e2, 0xea7947b8, 0x538059b7);
    s := Step(b, 62, s, 0xbef9a3f7, 0xc9670b22, 0xa448f489, 0x84a1d9d2);
    s := Step(b, 63, s, 0xc67178f2, 0x3e3cb561, 0xc2e86753, 0xca07cbdd);
  }

  lemma HelloRounds(b: Block)
    requires IsHelloBlock(b)
    ensures Rounds(Initial(), b, 64) == S_64
  {
    hide Scheduled, IsHelloBlock, Row, HelloRow, Rounds;
    NoRounds(b);
    HelloSchedule(b, 0);
    Rounds0To4(b);
    Rounds4To8(b);
    HelloSchedule(b, 1);
    Rounds8To12(b);
    Rounds12To16(b);
    HelloSchedule(b, 2);
    Rounds16To20(b);
    Rounds20To24(b);
    HelloSchedule(b, 3);
    Rounds24To28(b);
    Rounds28To32(b);
    HelloSchedule(b, 4);
    Rounds32To36(b);
    Rounds36To40(b);
    HelloSchedule(b, 5);
    Rounds40To44(b);
    Rounds44To48(b);
    HelloSchedule(b, 6);
    Rounds48To52(b);
    Rounds52To56(b);
    HelloSchedule(b, 7);
    Rounds56To60(b);
    Rounds60To64(b);
  }

  lemma NoRounds(b: Block)
    ensures Rounds(Initial(), b, 0) == S_0
  {
  }

  /** The digest of "hello". */
  lemma HelloDigest()
    ensures Hash(HELLO) == State(0x2cf24dba, 0x5fb0a30e, 0x26e83b2a, 0xc5b9e29e,
                                 0x1b161e5c, 0x1fa7425e, 0x73043362, 0x938b9824)
  {
    hide Rounds, Padded;
    var b := HelloPadded();
    HelloRounds(b);
    OneBlock(Padded(HELLO), b);
  }

  lemma HelloPadded() returns (b: Block)
    ensures b == Padded(HELLO) && IsHelloBlock(b)
  {
    assert HELLO[..] == HELLO && Gap(5) == 50;
    b := Padded(HELLO);
    HelloLength();
    assert b[56..] == Length64(40);
    assert b[..6] == HELLO + [0x80];
    hide Length64;
    assert b[6..56] == Zeros(50);
    assert forall i :: 6 <= i < 56 ==> b[i] == b[6..56][i - 6];
  }

  lemma HelloLength()
    ensures BitLength(5) == 40 && Length64(40) == [0, 0, 0, 0, 0, 0, 0, 40]
  {
    FortyBits();
    hide BitLength;
    LengthOfForty(40);
  }

  lemma FortyBits()
    ensures BitLength(5) == 40
  {
    hide Length64, Padded, Rounds;
    assert 8 * 5 % 0x1_0000_0000_0000_0000 == 40;
  }

  lemma LengthOfForty(bits: bv64)
    requires bits == 40
    ensures Length64(bits) == [0, 0, 0, 0, 0, 0, 0, 40]
  {
  }

  lemma OneBlock(p: seq<bv8>, b: Block)
    requires |p| == 64 && b == p
    ensures HashBlocks(p, 1) == Compress(Initial(), b)
  {
    hide Compress, Initial;
    assert BlockAt(p, 0) == b;
  }
}
