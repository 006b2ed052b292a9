/** The pass structure of the reference FFT (sim/hw/fft_tb/fft_tb.cpp): two buffers,
    in-place style decimation-in-frequency indexing, a copy pass for odd sizes and a
    bit-reversed last write. The butterfly arithmetic is a parameter of the plan, so that
    one method serves exact arithmetic and Q15 alike. */
module FftSchedule {
  import opened PowersOfTwo

  /** What one call of the transform is given: the size, the size the table was built for,
      the SCALE mask, the twiddle table, and the arithmetic of one butterfly. */
  datatype Plan<!T> = Plan(
    log2n: nat, logNmax: nat, scale: nat, table: seq<T>,
    butterfly: (bool, T, T, T) -> (T, T))
  {
    ghost predicate Valid() {
      log2n <= logNmax && |table| == Pow2(logNmax) / 2
    }

    function N(): (n: nat) { Pow2(log2n) }

    /** Bit st of the SCALE mask. */
    predicate Scaled(st: nat) { scale / Pow2(st) % 2 == 1 }

    /** Distance between the two inputs of a butterfly at stage st: N >> (st + 1). */
    function Half(st: nat): (h: nat)
      requires st < log2n
      ensures h > 0
    {
      Pow2(log2n - st - 1)
    }

    /** Stride through the twiddle table at stage st: (1 << st) * (NMAX / N). */
    function Step(st: nat): (s: nat)
      requires log2n <= logNmax
      ensures s > 0
    {
      Pow2(logNmax - log2n + st)
    }

    lemma Geometry(st: nat)
      requires Valid() && st < log2n
      ensures Half(st) == N() / Pow2(st + 1)
      ensures Step(st) == Pow2(st) * (Pow2(logNmax) / N())
      ensures N() == Pow2(st) * (2 * Half(st))
      ensures N() / 2 == Pow2(st) * Half(st)
      ensures Half(st) * Step(st) == |table|
    {
      var a, b := log2n - st - 1, logNmax - log2n;
      Pow2Quotient(log2n, st + 1);
      Pow2Quotient(logNmax, log2n);
      assert Step(st) == Pow2(st) * Pow2(b) by { Pow2Add(st, b); }
      assert Pow2(log2n - 1) == Pow2(st) * Half(st) by { Pow2Add(st, a); }
      assert Pow2(st) * (2 * Half(st)) == 2 * (Pow2(st) * Half(st));
      assert Half(st) * Step(st) == Pow2(logNmax - 1) by { Pow2Add(a, b + st); }
    }
  }

  // ------------------------------------------------------------ butterfly addressing

  /** First and second input of butterfly bf (`half` is a power of two, so masking with
      half - 1 is taking the remainder, and setting the half bit is adding half). */
  function Ia(bf: nat, half: nat): (i: nat)
    requires half > 0
  {
    2 * (bf - bf % half) + bf % half
  }

  function Ib(bf: nat, half: nat): (i: nat)
    requires half > 0
  {
    Ia(bf, half) + half
  }

  predicate Upper(p: nat, half: nat)
    requires half > 0
  {
    p / half % 2 == 0
  }

  /** The butterfly that position p belongs to. */
  function Owner(p: nat, half: nat): int
    requires half > 0
  {
    p / (2 * half) * half + p % half
  }

  /** Position p written as block, side and offset. */
  lemma Split(p: nat, half: nat) returns (block: nat, side: nat, j: nat)
    requires half > 0
    ensures side < 2 && j < half
    ensures p == block * (2 * half) + (if side == 0 then 0 else half) + j
    ensures block == p / (2 * half) && side == p / half % 2 && j == p % half
  {
    var q := p / half;
    j, block, side := p % half, q / 2, q % 2;
    assert p == q * half + j;
    assert q * half == block * (2 * half) + side * half by {
      assert q == 2 * block + side;
      assert (2 * block + side) * half == 2 * block * half + side * half;
      assert block * (2 * half) == 2 * block * half;
    }
    assert side * half == if side == 0 then 0 else half by { if side == 0 {} else { assert side == 1; } }
    DivModUnique(p, 2 * half, block, side * half + j);
  }

  /** The pairs (ia, ib) partition the positions: p is touched by butterfly Owner(p) and by
      no other, as its first input exactly when p is an upper position. */
  lemma Partition(p: nat, bf: nat, half: nat)
    requires half > 0
    ensures Owner(p, half) == bf <==> p == Ia(bf, half) || p == Ib(bf, half)
    ensures Upper(Ia(bf, half), half) && !Upper(Ib(bf, half), half)
    ensures Ia(bf, half) % half == bf % half == Ib(bf, half) % half
    ensures Owner(Ia(bf, half), half) == bf == Owner(Ib(bf, half), half)
    ensures Owner(p, half) >= 0
    ensures p == if Upper(p, half) then Ia(Owner(p, half), half) else Ib(Owner(p, half), half)
  {
    IaIbSplit(bf, half);
    var block, side, j := Split(p, half);
    DivModUnique(Owner(p, half), half, block, j);
    assert 2 * (block * half) == block * (2 * half);
    assert Ia(Owner(p, half), half) == block * (2 * half) + j;
  }

  lemma IaIbSplit(bf: nat, half: nat)
    requires half > 0
    ensures Upper(Ia(bf, half), half) && !Upper(Ib(bf, half), half)
    ensures Ia(bf, half) % half == bf % half == Ib(bf, half) % half
    ensures Owner(Ia(bf, half), half) == bf == Owner(Ib(bf, half), half)
  {
    var b, j := bf / half, bf % half;
    assert bf == b * half + j;
    assert Ia(bf, half) == (2 * b) * half + j by { assert (2 * b) * half == 2 * (b * half); }
    assert Ib(bf, half) == (2 * b + 1) * half + j by { assert (2 * b + 1) * half == (2 * b) * half + half; }
    DivModUnique(Ia(bf, half), half, 2 * b, j);
    DivModUnique(Ib(bf, half), half, 2 * b + 1, j);
    assert (2 * b) * half == b * (2 * half);
    DivModUnique(Ia(bf, half), 2 * half, b, j);
    DivModUnique(Ib(bf, half), 2 * half, b, half + j);
  }

  /** Both inputs of a butterfly are inside the buffer. */
  lemma InRange(p: nat, half: nat, blocks: nat)
    requires half > 0 && p < blocks * (2 * half)
    ensures Upper(p, half) ==> p + half < blocks * (2 * half)
    ensures !Upper(p, half) ==> p >= half
    ensures 0 <= Owner(p, half) < blocks * half
  {
    var block, side, j := Split(p, half);
    if block >= blocks {
      MulLe(blocks, block, 2 * half);
    }
    MulLe(block + 1, blocks, 2 * half);
    MulLe(block + 1, blocks, half);
    MulLe(0, block, 2 * half);
    MulLe(0, block, half);
    assert (block + 1) * half == block * half + half;
    assert (block + 1) * (2 * half) == block * (2 * half) + 2 * half;
  }

  // ------------------------------------------------------------ one pass, as a function

  /** The twiddle and the two inputs of the butterfly that position p belongs to. */
  function Inputs<T>(plan: Plan<T>, st: nat, x: seq<T>, p: nat): (r: (T, T, T))
    requires plan.Valid() && st < plan.log2n && |x| == plan.N() && p < plan.N()
    ensures r.0 in plan.table && r.1 in x && r.2 in x
  {
    plan.Geometry(st);
    var half, step := plan.Half(st), plan.Step(st);
    InRange(p, half, Pow2(st));
    TwiddleInRange(p % half, half, step);
    var w := plan.table[p % half * step];
    if Upper(p, half) then (w, x[p], x[p + half]) else (w, x[p - half], x[p])
  }

  /** What pass st leaves for position p, before any reordering. */
  function Output<T>(plan: Plan<T>, st: nat, x: seq<T>, p: nat): T
    requires plan.Valid() && st < plan.log2n && |x| == plan.N() && p < plan.N()
  {
    var i := Inputs(plan, st, x, p);
    var out := plan.butterfly(plan.Scaled(st), i.0, i.1, i.2);
    if Upper(p, plan.Half(st)) then out.0 else out.1
  }

  lemma TwiddleInRange(j: nat, half: nat, step: nat)
    requires j < half && step > 0
    ensures 0 <= j * step < half * step
  {
    MulLe(0, j, step);
    MulLe(j + 1, half, step);
    assert (j + 1) * step == j * step + step;
  }

  function Stage<T>(plan: Plan<T>, st: nat, x: seq<T>): (y: seq<T>)
    requires plan.Valid() && st < plan.log2n && |x| == plan.N()
    ensures |y| == |x|
  {
    seq(|x|, p requires 0 <= p < |x| => Output(plan, st, x, p))
  }

  /** The first k passes. */
  function Stages<T>(plan: Plan<T>, k: nat, x: seq<T>): (y: seq<T>)
    requires plan.Valid() && k <= plan.log2n && |x| == plan.N()
    ensures |y| == |x|
  {
    if k == 0 then x else Stage(plan, k - 1, Stages(plan, k - 1, x))
  }

  /** Element k comes from the bit-reversed position. */
  function Reorder<T>(log2n: nat, x: seq<T>): (y: seq<T>)
    requires |x| == Pow2(log2n)
    ensures |y| == |x|
  {
    seq(|x|, k requires 0 <= k < |x| => x[BitRev(k, log2n)])
  }

  function Transform<T>(plan: Plan<T>, x: seq<T>): (y: seq<T>)
    requires plan.Valid() && |x| == plan.N()
    ensures |y| == |x|
  {
    Reorder(plan.log2n, Stages(plan, plan.log2n, x))
  }

  // ------------------------------------------------------------ the program

  method Brev(x: nat, n: nat) returns (r: nat)
    ensures r == BitRev(x, n)
  {
    r := 0;
    ghost var rest := x;
    for i := 0 to n
      invariant rest == x / Pow2(i)
      invariant r + BitRev(rest, n - i) == BitRev(x, n)
    {
      NextBit(x, i);
      if x / Pow2(i) % 2 == 1 {
        r := r + Pow2(n - 1 - i);
      }
      rest := rest / 2;
    }
  }

  /** Where a pass writes position p. */
  function Slot(p: nat, log2n: nat, last: bool): nat {
    if last then BitRev(p, log2n) else p
  }

  lemma SlotInjective(p: nat, q: nat, log2n: nat, last: bool)
    requires p < Pow2(log2n) && q < Pow2(log2n)
    ensures Slot(p, log2n, last) == Slot(q, log2n, last) <==> p == q
  {
    BitRevInvolution(p, log2n);
    BitRevInvolution(q, log2n);
  }

  /** The addresses of butterfly bf, and what its two results are. */
  lemma ButterflyFacts<T>(plan: Plan<T>, st: nat, bf: nat, x: seq<T>)
    requires plan.Valid() && st < plan.log2n && |x| == plan.N() && bf < plan.N() / 2
    ensures var half, j := plan.Half(st), bf % plan.Half(st);
      var ia, ib := Ia(bf, half), Ib(bf, half);
      && ia < ib < plan.N()
      && 0 <= j * plan.Step(st) < |plan.table|
      && plan.butterfly(plan.Scaled(st), plan.table[j * plan.Step(st)], x[ia], x[ib])
         == (Output(plan, st, x, ia), Output(plan, st, x, ib))
  {
    hide Ia, Ib, Upper, Owner, Pow2;
    var half := plan.Half(st);
    plan.Geometry(st);
    PairInRange(bf, half, Pow2(st));
    TwiddleInRange(bf % half, half, plan.Step(st));
    IaIbSplit(bf, half);
  }

  /** One butterfly of pass st: read the pair, store the results in their slots of dst. */
  method RunButterfly<T>(plan: Plan<T>, st: nat, src: array<T>, dst: array<T>, bf: nat, last: bool)
    requires plan.Valid() && st < plan.log2n && bf < plan.N() / 2
    requires src.Length == plan.N() == dst.Length && src != dst
    modifies dst
    ensures forall p :: 0 <= p < plan.N() ==>
      dst[Slot(p, plan.log2n, last)] == (
        if Owner(p, plan.Half(st)) == bf then Output(plan, st, src[..], p)
        else old(dst[Slot(p, plan.log2n, last)]))
  {
    hide Owner, Upper, Output;
    plan.Geometry(st);
    ButterflyFacts(plan, st, bf, src[..]);
    var n := plan.N();
    var half := n / Pow2(st + 1);
    var step := Pow2(st) * (Pow2(plan.logNmax) / n);
    var j := bf % half;
    var hi := bf - j;
    var ia := 2 * hi + j;
    var ib := ia + half;
    var (oa, ob) := plan.butterfly(plan.Scaled(st), plan.table[j * step], src[ia], src[ib]);
    var wa, wb := ia, ib;
    if last {
      wa := Brev(ia, plan.log2n);
      wb := Brev(ib, plan.log2n);
    }
    dst[wa] := oa;
    dst[wb] := ob;
    forall p | 0 <= p < plan.N()
      ensures dst[Slot(p, plan.log2n, last)] ==
        if Owner(p, half) == bf then Output(plan, st, src[..], p)
        else old(dst[Slot(p, plan.log2n, last)])
    {
      Partition(p, bf, half);
      SlotInjective(p, ia, plan.log2n, last);
      SlotInjective(p, ib, plan.log2n, last);
    }
  }

  /** A pass other than the copy pass. */
  method RunStage<T>(plan: Plan<T>, st: nat, src: array<T>, dst: array<T>, last: bool)
    requires plan.Valid() && st < plan.log2n
    requires src.Length == plan.N() == dst.Length && src != dst
    modifies dst
    ensures last ==> dst[..] == Reorder(plan.log2n, Stage(plan, st, src[..]))
    ensures !last ==> dst[..] == Stage(plan, st, src[..])
  {
    var n := plan.N();
    ghost var half := plan.Half(st);
    ghost var y := Stage(plan, st, src[..]);
    plan.Geometry(st);
    OwnerInRange(plan, st);
    for bf := 0 to n / 2
      invariant forall p :: 0 <= p < n && Owner(p, half) < bf ==> dst[Slot(p, plan.log2n, last)] == y[p]
    {
      RunButterfly(plan, st, src, dst, bf, last);
    }
    if last {
      FromSlots(plan.log2n, y, dst[..]);
    } else {
      assert forall p :: 0 <= p < n ==> dst[Slot(p, plan.log2n, last)] == dst[p];
    }
  }

  lemma OwnerInRange<T>(plan: Plan<T>, st: nat)
    requires plan.Valid() && st < plan.log2n
    ensures forall p :: 0 <= p < plan.N() ==> 0 <= Owner(p, plan.Half(st)) < plan.N() / 2
  {
    plan.Geometry(st);
    forall p | 0 <= p < plan.N()
      ensures 0 <= Owner(p, plan.Half(st)) < plan.N() / 2
    {
      InRange(p, plan.Half(st), Pow2(st));
    }
  }

  lemma StagesNext<T>(plan: Plan<T>, k: nat, x: seq<T>)
    requires plan.Valid() && k < plan.log2n && |x| == plan.N()
    ensures Stages(plan, k + 1, x) == Stage(plan, k, Stages(plan, k, x))
  {
  }

  lemma PairInRange(bf: nat, half: nat, blocks: nat)
    requires half > 0 && bf < blocks * half
    ensures Ia(bf, half) + half == Ib(bf, half) < blocks * (2 * half)
  {
    var b, j := bf / half, bf % half;
    assert bf == b * half + j;
    if b >= blocks {
      MulLe(blocks, b, half);
    }
    MulLe(b + 1, blocks, 2 * half);
    assert (b + 1) * (2 * half) == 2 * (b * half) + 2 * half;
  }

  /** A buffer whose bit-reversed slots hold y is y reordered. */
  lemma FromSlots<T>(log2n: nat, y: seq<T>, d: seq<T>)
    requires |y| == |d| == Pow2(log2n)
    requires forall p :: 0 <= p < |y| ==> d[Slot(p, log2n, true)] == y[p]
    ensures d == Reorder(log2n, y)
  {
    forall k | 0 <= k < |d|
      ensures d[k] == y[BitRev(k, log2n)]
    {
      BitRevInvolution(k, log2n);
      assert d[Slot(BitRev(k, log2n), log2n, true)] == y[BitRev(k, log2n)];
    }
  }

  /** The extra pass of an odd log2n: half is 1 and both inputs are copied through. */
  method RunCopy<T>(log2n: nat, src: array<T>, dst: array<T>)
    requires log2n > 0 && src.Length == Pow2(log2n) == dst.Length && src != dst
    modifies dst
    ensures dst[..] == Reorder(log2n, src[..])
  {
    var n := Pow2(log2n);
    assert n == 2 * Pow2(log2n - 1);
    hide BitRev, Pow2, Reorder;
    for bf := 0 to n / 2
      invariant forall p :: 0 <= p < 2 * bf ==> dst[Slot(p, log2n, true)] == src[p]
    {
      var ia := 2 * bf;
      var ib := ia + 1;
      var wa := Brev(ia, log2n);
      var wb := Brev(ib, log2n);
      dst[wa] := src[ia];
      dst[wb] := src[ib];
      forall p | 0 <= p < 2 * (bf + 1)
        ensures dst[Slot(p, log2n, true)] == src[p]
      {
        SlotInjective(p, ia, log2n, true);
        SlotInjective(p, ib, log2n, true);
      }
    }
    FromSlots(log2n, src[..], dst[..]);
  }

  /** What pass st leaves in its destination buffer. */
  function PassResult<T>(plan: Plan<T>, st: nat, x: seq<T>, last: bool): (y: seq<T>)
    requires plan.Valid() && |x| == plan.N()
    ensures |y| == |x|
  {
    var y := if st < plan.log2n then Stage(plan, st, x) else x;
    if last then Reorder(plan.log2n, y) else y
  }

  /** One pass from src to dst: a butterfly stage, or the copy. */
  method RunPass<T>(plan: Plan<T>, st: nat, src: array<T>, dst: array<T>, last: bool)
    requires plan.Valid() && plan.log2n > 0 && (st < plan.log2n || last)
    requires src.Length == plan.N() == dst.Length && src != dst
    modifies dst
    ensures dst[..] == PassResult(plan, st, old(src[..]), last)
  {
    if st >= plan.log2n {
      RunCopy(plan.log2n, src, dst);
    } else {
      RunStage(plan, st, src, dst, last);
    }
  }

  /** The number of passes: log2n rounded up to even. */
  function Total(log2n: nat): (t: nat)
    ensures t % 2 == 0
  {
    log2n + log2n % 2
  }

  /** What the current buffer holds before pass st. */
  function Expected<T>(plan: Plan<T>, st: nat, x: seq<T>): (y: seq<T>)
    requires plan.Valid() && |x| == plan.N() && st <= Total(plan.log2n)
    ensures |y| == |x|
  {
    if st == Total(plan.log2n) then Transform(plan, x) else Stages(plan, st, x)
  }

  lemma PassCorrect<T>(plan: Plan<T>, st: nat, x: seq<T>)
    requires plan.Valid() && |x| == plan.N() && st < Total(plan.log2n)
    ensures PassResult(plan, st, Expected(plan, st, x), st == Total(plan.log2n) - 1) == Expected(plan, st + 1, x)
  {
    hide Stage, Reorder;
    var L := plan.log2n;
    if st < L {
      StagesNext(plan, st, x);
    }
    if st == Total(L) - 1 {
      assert PassResult(plan, st, Stages(plan, st, x), true) == Reorder(L, Stages(plan, L, x));
    }
  }

  lemma ExpectedEnds<T>(plan: Plan<T>, x: seq<T>)
    requires plan.Valid() && |x| == plan.N()
    ensures Expected(plan, 0, x) == x
    ensures Expected(plan, Total(plan.log2n), x) == Transform(plan, x)
  {
    if plan.log2n == 0 {
      assert Reorder(0, x) == x;
    }
  }

  /** The pass loop; the number of passes is even, so the result ends up back in buf. */
  method RunPasses<T>(plan: Plan<T>, buf: array<T>, scr: array<T>)
    requires plan.Valid() && buf.Length == plan.N() == scr.Length && buf != scr
    modifies buf, scr
    ensures buf[..] == Transform(plan, old(buf[..]))
  {
    hide Expected, PassResult, Transform, Total, Pow2;
    ghost var x := buf[..];
    var total := Total(plan.log2n);
    ExpectedEnds(plan, x);
    var src, dst := buf, scr;
    for st := 0 to total
      invariant if st % 2 == 0 then src == buf && dst == scr else src == scr && dst == buf
      invariant src[..] == Expected(plan, st, x)
    {
      PassCorrect(plan, st, x);
      LastPass(plan.log2n, st);
      RunPass(plan, st, src, dst, st == total - 1);
      src, dst := dst, src;
    }
  }

  method ModelFft<T(0)>(plan: Plan<T>, buf: array<T>)
    requires plan.Valid() && buf.Length == plan.N()
    modifies buf
    ensures buf[..] == Transform(plan, old(buf[..]))
  {
    var scr := new T[plan.N()];
    RunPasses(plan, buf, scr);
  }

  /** The copy pass, when there is one, is the last. */
  lemma LastPass(log2n: nat, st: nat)
    requires st < Total(log2n)
    ensures log2n > 0 && (st < log2n || st == Total(log2n) - 1)
  {
  }
}
