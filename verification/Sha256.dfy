/** The SHA-256 of sim/sw/sha256/sha256.c against FIPS 180-4: the padding of section 5.1.1, the
    blocks of section 5.2.1 and the compression of section 6.2.2. */
module Sha256 {

  import opened Sha256Words

  datatype State = State(a: bv32, b: bv32, c: bv32, d: bv32, e: bv32, f: bv32, g: bv32, h: bv32)

  function Initial(): State {
    State(0x6a09e667, 0xbb67ae85, 0x3c6ef372, 0xa54ff53a,
          0x510e527f, 0x9b05688c, 0x1f83d9ab, 0x5be0cd19)
  }

  // ------------------------------------------------------------ one block (section 6.2.2)

  type Block = b: seq<bv8> | |b| == 64 witness seq(64, i => 0)

  function BigEndian(b: Block, t: nat): bv32
    requires t < 16
  {
    (b[4 * t] as bv32 << 24) | (b[4 * t + 1] as bv32 << 16) | (b[4 * t + 2] as bv32 << 8) | b[4 * t + 3] as bv32
  }

  function Extended(w2: bv32, w7: bv32, w15: bv32, w16: bv32): bv32 {
    SmallSigma1(w2) + w7 + SmallSigma0(w15) + w16
  }

  /** Word t of the message schedule. */
  function Scheduled(b: Block, t: nat): bv32
    requires t < 64
  {
    if t < 16 then BigEndian(b, t)
    else Extended(Scheduled(b, t - 2), Scheduled(b, t - 7), Scheduled(b, t - 15), Scheduled(b, t - 16))
  }

  function Sum(x: bv32, y: bv32): bv32 { x + y }

  function T1(e: bv32, f: bv32, g: bv32, h: bv32, k: bv32, w: bv32): bv32 {
    h + BigSigma1(e) + Ch(e, f, g) + k + w
  }

  function T2(a: bv32, b: bv32, c: bv32): bv32 { BigSigma0(a) + Maj(a, b, c) }

  function Round(s: State, k: bv32, w: bv32): State {
    var t1, t2 := T1(s.e, s.f, s.g, s.h, k, w), T2(s.a, s.b, s.c);
    State(Sum(t1, t2), s.a, s.b, s.c, Sum(s.d, t1), s.e, s.f, s.g)
  }

  function Rounds(s: State, b: Block, t: nat): State
    requires t <= 64
  {
    if t == 0 then s else Round(Rounds(s, b, t - 1), K(t - 1), Scheduled(b, t - 1))
  }

  function Plus(s: State, t: State): State {
    State(Sum(s.a, t.a), Sum(s.b, t.b), Sum(s.c, t.c), Sum(s.d, t.d),
          Sum(s.e, t.e), Sum(s.f, t.f), Sum(s.g, t.g), Sum(s.h, t.h))
  }

  function Compress(s: State, b: Block): State { Plus(s, Rounds(s, b, 64)) }

  // ------------------------------------------------------------ padding (section 5.1.1)

  function Zeros(n: nat): (z: seq<bv8>)
    ensures |z| == n
  {
    seq(n, (i: nat) => 0)
  }

  /** The length of a message in bits. */
  function BitLength(len: nat): bv64 { (8 * len % 0x1_0000_0000_0000_0000) as bv64 }

  /** A 64-bit number as eight bytes, highest first. */
  function Length64(bits: bv64): (l: seq<bv8>)
    ensures |l| == 8
  {
    [((bits >> 56) & 0xff) as bv8, ((bits >> 48) & 0xff) as bv8, ((bits >> 40) & 0xff) as bv8,
     ((bits >> 32) & 0xff) as bv8, ((bits >> 24) & 0xff) as bv8, ((bits >> 16) & 0xff) as bv8,
     ((bits >> 8) & 0xff) as bv8, (bits & 0xff) as bv8]
  }

  lemma LengthIsBigEndian(bits: bv64)
    ensures var l := Length64(bits);
      bits == (l[0] as bv64 << 56) | (l[1] as bv64 << 48) | (l[2] as bv64 << 40) | (l[3] as bv64 << 32)
              | (l[4] as bv64 << 24) | (l[5] as bv64 << 16) | (l[6] as bv64 << 8) | l[7] as bv64
  {
  }

  /** The least number of zero bytes that leaves room for exactly the length at the end of a
      block. */
  function Gap(len: nat): (k: nat)
    ensures k < 64 && (len + 1 + k) % 64 == 56
  {
    (119 - len % 64) % 64
  }

  function Padded(msg: seq<bv8>): (p: seq<bv8>)
    ensures |p| % 64 == 0 && |p| == |msg| + 9 + Gap(|msg|)
  {
    PaddingFills(|msg|);
    msg + [0x80] + Zeros(Gap(|msg|)) + Length64(BitLength(|msg|))
  }

  lemma PaddingFills(len: nat)
    ensures (len + 1 + Gap(len) + 8) % 64 == 0
  {
  }

  /** Block i of a message. */
  function BlockAt(p: seq<bv8>, i: nat): Block
    requires 64 * (i + 1) <= |p|
  {
    p[64 * i..64 * (i + 1)]
  }

  /** The state after the first n blocks. */
  function HashBlocks(p: seq<bv8>, n: nat): State
    requires 64 * n <= |p|
  {
    if n == 0 then Initial() else Compress(HashBlocks(p, n - 1), BlockAt(p, n - 1))
  }

  function Hash(msg: seq<bv8>): State {
    HashBlocks(Padded(msg), |Padded(msg)| / 64)
  }

  lemma {:induction false} HashOfPrefix(p: seq<bv8>, more: seq<bv8>, n: nat)
    requires 64 * n <= |p|
    ensures HashBlocks(p + more, n) == HashBlocks(p, n)
  {
    hide Compress, Initial;
    if n > 0 {
      HashOfPrefix(p, more, n - 1);
      assert BlockAt(p + more, n - 1) == BlockAt(p, n - 1);
    }
  }

  /** The tail of the padded message: one block if the length still fits behind the remainder,
      two if it does not. */
  function Tail(rest: seq<bv8>, bits: bv64): (t: seq<bv8>)
    requires |rest| < 64
    ensures |t| == if |rest| < 56 then 64 else 128
  {
    rest + [0x80] + Zeros(if |rest| < 56 then 55 - |rest| else 119 - |rest|) + Length64(bits)
  }

  lemma PaddedSplits(msg: seq<bv8>, full: nat)
    requires full == |msg| / 64
    ensures Padded(msg) == msg[..64 * full] + Tail(msg[64 * full..], BitLength(|msg|))
  {
    hide Length64;
    assert msg == msg[..64 * full] + msg[64 * full..];
  }

  lemma TailOfOne(rest: seq<bv8>, bits: bv64)
    requires |rest| < 56
    ensures (rest + [0x80] + Zeros(63 - |rest|))[..56] + Length64(bits) == Tail(rest, bits)
  {
    hide Length64;
  }

  lemma TailOfTwo(rest: seq<bv8>, bits: bv64)
    requires 56 <= |rest| < 64
    ensures (rest + [0x80] + Zeros(63 - |rest|)) + (Zeros(56) + Length64(bits)) == Tail(rest, bits)
  {
    hide Length64;
  }

  /** What the program's last block, or last two, must be for the hash to be right. */
  lemma HashByOneTail(msg: seq<bv8>, full: nat)
    requires full == |msg| / 64 && |msg| % 64 < 56
    ensures Hash(msg) == Compress(HashBlocks(msg, full), Tail(msg[64 * full..], BitLength(|msg|)))
  {
    hide Compress, Initial, Padded, Tail, BlockAt;
    var head, t := msg[..64 * full], Tail(msg[64 * full..], BitLength(|msg|));
    HeadThenTail(msg, full, head, t);
    BlockBehind(head, t, full);
    assert |Padded(msg)| / 64 == full + 1;
  }

  lemma HashByTwoTails(msg: seq<bv8>, full: nat, t1: Block, t2: Block)
    requires full == |msg| / 64 && t1 + t2 == Tail(msg[64 * full..], BitLength(|msg|))
    ensures Hash(msg) == Compress(Compress(HashBlocks(msg, full), t1), t2)
  {
    hide Compress, Initial, Padded, Tail, BlockAt;
    var head := msg[..64 * full];
    HeadThenTail(msg, full, head, t1 + t2);
    assert head + (t1 + t2) == head + t1 + t2;
    HashOfPrefix(head + t1, t2, full + 1);
    HashOfPrefix(head, t1, full);
    HashOfPrefix(head, t1 + t2, full);
    BlockBehind(head, t1, full);
    BlockBehind(head + t1, t2, full + 1);
    assert |Padded(msg)| / 64 == full + 2;
  }

  lemma HeadThenTail(msg: seq<bv8>, full: nat, head: seq<bv8>, t: seq<bv8>)
    requires full == |msg| / 64 && head == msg[..64 * full] && t == Tail(msg[64 * full..], BitLength(|msg|))
    ensures Padded(msg) == head + t && HashBlocks(head + t, full) == HashBlocks(msg, full)
  {
    hide Compress, Initial, Padded, Tail, HashBlocks;
    PaddedSplits(msg, full);
    HashOfPrefix(head, t, full);
    HashOfPrefix(head, msg[64 * full..], full);
    assert head + msg[64 * full..] == msg;
  }

  lemma BlockBehind(head: seq<bv8>, t: seq<bv8>, full: nat)
    requires |head| == 64 * full && |t| >= 64
    ensures BlockAt(head + t, full) == t[..64]
    ensures |t| == 64 ==> t[..64] == t
  {
  }

  // ------------------------------------------------------------ the program

  ghost predicate Holds(h: array<bv32>, s: State)
    reads h
  {
    && h.Length == 8
    && h[0] == s.a && h[1] == s.b && h[2] == s.c && h[3] == s.d
    && h[4] == s.e && h[5] == s.f && h[6] == s.g && h[7] == s.h
  }

  method ExpandBlock(block: Block) returns (w: array<bv32>)
    ensures fresh(w) && w.Length == 64 && forall t: nat :: t < 64 ==> w[t] == Scheduled(block, t)
  {
    hide Extended, BigEndian;
    w := new bv32[64];
    for i := 0 to 16
      invariant forall t: nat :: t < i ==> w[t] == Scheduled(block, t)
    {
      w[i] := BigEndian(block, i);
    }
    for i := 16 to 64
      invariant forall t: nat :: t < i ==> w[t] == Scheduled(block, t)
    {
      w[i] := Extended(w[i - 2], w[i - 7], w[i - 15], w[i - 16]);
    }
  }

  method RunRounds(block: Block, s: State) returns (r: State)
    ensures r == Rounds(s, block, 64)
  {
    hide T1, T2, Sum, K, Scheduled;
    var w := ExpandBlock(block);
    var a, b, c, d := s.a, s.b, s.c, s.d;
    var e, f, g, h := s.e, s.f, s.g, s.h;
    for i := 0 to 64
      invariant State(a, b, c, d, e, f, g, h) == Rounds(s, block, i)
    {
      var t1 := T1(e, f, g, h, K(i), w[i]);
      var t2 := T2(a, b, c);
      h := g;
      g := f;
      f := e;
      e := Sum(d, t1);
      d := c;
      c := b;
      b := a;
      a := Sum(t1, t2);
    }
    r := State(a, b, c, d, e, f, g, h);
  }

  method Sha256Transform(hs: array<bv32>, block: Block, ghost s: State)
    requires Holds(hs, s)
    modifies hs
    ensures Holds(hs, Compress(s, block))
  {
    hide Rounds, Sum;
    var r := RunRounds(block, State(hs[0], hs[1], hs[2], hs[3], hs[4], hs[5], hs[6], hs[7]));
    hs[0] := Sum(hs[0], r.a);
    hs[1] := Sum(hs[1], r.b);
    hs[2] := Sum(hs[2], r.c);
    hs[3] := Sum(hs[3], r.d);
    hs[4] := Sum(hs[4], r.e);
    hs[5] := Sum(hs[5], r.f);
    hs[6] := Sum(hs[6], r.g);
    hs[7] := Sum(hs[7], r.h);
  }

  /** Copy the last bytes into a zeroed block and mark their end. */
  method FirstTailBlock(data: array<bv8>, from: nat, remainder: nat) returns (block: array<bv8>)
    requires remainder < 64 && from + remainder == data.Length
    ensures fresh(block) && block.Length == 64
    ensures block[..] == data[from..] + [0x80] + Zeros(63 - remainder)
  {
    block := new bv8[64](i => 0);
    for j := 0 to remainder
      invariant block[..] == data[from..from + j] + Zeros(64 - j)
    {
      block[j] := data[from + j];
    }
    block[remainder] := 0x80;
  }

  method WriteLength(block: array<bv8>, len: nat)
    requires block.Length == 64
    modifies block
    ensures block[..] == old(block[..56]) + Length64(BitLength(len))
  {
    hide Length64;
    var l := Length64(BitLength(len));
    for j := 0 to 8
      invariant block[..] == old(block[..56]) + l[..j] + old(block[56 + j..])
    {
      block[56 + j] := l[j];
    }
  }

  /** The one or two blocks behind the full ones. */
  method Finish(data: array<bv8>, full: nat, hs: array<bv32>)
    requires full == data.Length / 64 && Holds(hs, HashBlocks(data[..], full))
    modifies hs
    ensures Holds(hs, Hash(data[..]))
  {
    hide Compress, Hash, HashBlocks, Length64, Tail, Holds, Zeros;
    ghost var msg := data[..];
    var remainder := data.Length % 64;
    ghost var rest := msg[64 * full..];
    assert rest == data[64 * full..];
    ghost var state := HashBlocks(msg, full);
    var block := FirstTailBlock(data, 64 * full, remainder);
    if remainder >= 56 {
      TailOfTwo(rest, BitLength(data.Length));
      HashByTwoTails(msg, full, block[..], Zeros(56) + Length64(BitLength(data.Length)));
      Sha256Transform(hs, block[..], state);
      state := Compress(state, block[..]);
      ClearBlock(block);
    } else {
      TailOfOne(rest, BitLength(data.Length));
      HashByOneTail(msg, full);
    }
    WriteLength(block, data.Length);
    Sha256Transform(hs, block[..], state);
  }

  method ClearBlock(block: array<bv8>)
    requires block.Length == 64
    modifies block
    ensures block[..56] == Zeros(56)
  {
    for j := 0 to 64
      invariant block[..j] == Zeros(j)
    {
      block[j] := 0;
    }
    assert block[..56] == block[..64][..56];
  }

  /** The digest of a message of any 32-bit length. */
  method Sha256(data: array<bv8>, digest: array<bv32>)
    requires data.Length < 0x1_0000_0000 && digest.Length == 8
    modifies digest
    ensures Holds(digest, Hash(data[..]))
  {
    hide Compress, Initial, Hash, BlockAt;
    var hs := InitialHash();
    var full := data.Length / 64;
    for i := 0 to full
      invariant fresh(hs) && Holds(hs, HashBlocks(data[..], i))
    {
      Sha256Transform(hs, BlockAt(data[..], i), HashBlocks(data[..], i));
    }
    Finish(data, full, hs);
    ghost var s := Hash(data[..]);
    for i := 0 to 8
      invariant Holds(hs, s) && forall j :: 0 <= j < i ==> digest[j] == hs[j]
    {
      digest[i] := hs[i];
    }
  }

  method InitialHash() returns (hs: array<bv32>)
    ensures fresh(hs) && Holds(hs, Initial())
  {
    hide Initial;
    var init := Initial();
    hs := new bv32[8][init.a, init.b, init.c, init.d, init.e, init.f, init.g, init.h];
  }
}
