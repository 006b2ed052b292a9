/** The acquisition and analysis loop of sim/sw/guitar_tuner/guitar_tuner.c: a wrapping 32-bit
    decimator and DC blocker feed a ring, and every hop the ring is windowed into the FFT. */
module Tuner {

  import opened PowersOfTwo
  import opened Decimator
  import opened FftSchedule
  import opened FixedPoint
  import opened FftDriver
  import opened TunerSpec

  /** One power of two per halving: the gain is divided out exactly when R is a power of two. */
  method SetDecim(r: nat) returns (shift: nat)
    requires r > 0
    ensures Pow2(shift) <= r * r < 4 * Pow2(shift)
    ensures Pow2(shift) == r * r <==> exists j: nat :: r == Pow2(j)
  {
    var rest := r;
    shift := 0;
    ghost var k := 0;
    while rest > 1
      invariant rest > 0 && shift == 2 * k && rest * Pow2(k) <= r < (rest + 1) * Pow2(k)
    {
      HalvingKeepsBounds(r, rest, k);
      rest := rest / 2;
      shift := shift + 2;
      k := k + 1;
    }
    assert rest * Pow2(k) == Pow2(k) && (rest + 1) * Pow2(k) == 2 * Pow2(k);
    Pow2Add(k, k);
    SquareBetween(Pow2(k), r);
    forall j: nat | r == Pow2(j) ensures j == k {
      OnlyPower(j, k);
    }
  }

  lemma HalvingKeepsBounds(r: nat, rest: nat, k: nat)
    requires rest > 1 && rest * Pow2(k) <= r < (rest + 1) * Pow2(k)
    ensures rest / 2 * Pow2(k + 1) <= r < (rest / 2 + 1) * Pow2(k + 1)
  {
    var p, h := Pow2(k), rest / 2;
    assert h * (2 * p) == 2 * h * p && (h + 1) * (2 * p) == (2 * h + 2) * p;
    MulLe(2 * h, rest, p);
    MulLe(rest + 1, 2 * h + 2, p);
  }

  lemma SquareBetween(p: nat, r: nat)
    requires 0 < p <= r < 2 * p
    ensures p * p <= r * r < 4 * (p * p)
    ensures r * r == p * p <==> r == p
  {
    MulLe(p, r, p);
    MulLe(p, r, r);
    MulLe(r + 1, 2 * p, r);
    MulLe(r, 2 * p, 2 * p);
    assert (r + 1) * r == r * r + r;
    if r > p {
      MulLe(p + 1, r, r);
      MulLe(p, r, p + 1);
      assert (p + 1) * r == p * r + r;
    }
  }

  lemma OnlyPower(j: nat, k: nat)
    requires Pow2(k) <= Pow2(j) < 2 * Pow2(k)
    ensures j == k
  {
    PowersApart(j, k);
    PowersApart(k, j);
  }

  lemma PowersApart(low: nat, high: nat)
    ensures low < high ==> 2 * Pow2(low) <= Pow2(high)
  {
    if low < high {
      Pow2Add(low + 1, high - low - 1);
      assert Pow2(low + 1) == 2 * Pow2(low);
      hide Pow2;
      MulLe(1, Pow2(high - low - 1), Pow2(low + 1));
    }
  }

  class Tuner {
    /** Every word the receiver delivers, and whether its overrun flag went up by the time the word
        had been read. */
    const words: nat -> int
    const overrunAt: nat -> bool
    const r: nat
    const shift: nat
    const ring: array<int>
    var i1: int
    var i2: int
    var d1: int
    var d2: int
    var phase: nat
    var x1: int
    var y: int
    var pos: nat
    var count: nat
    var dirty: nat
    /** Words read so far, and outputs made so far. */
    var taken: nat
    ghost var made: nat
    /** Every moment at which the window was marked dirty, as the outputs made by then. */
    ghost var losses: seq<nat>
    /** The overrun flag of the loop, and how much of the log had been seen when it was taken down. */
    var frameOvr: bool
    ghost var cleared: nat

    constructor (words: nat -> int, overrunAt: nat -> bool, r: nat, shift: nat)
      requires AllInt16(Shifted(words)) && PowerOfTwoBlock(r, shift)
      ensures Valid() && fresh(ring) && taken == made == 0 && losses == [0]
      ensures this.words == words && this.overrunAt == overrunAt && this.r == r
    {
      this.words, this.overrunAt, this.r, this.shift := words, overrunAt, r, shift;
      ring := new int[N](i => 0);
      i1, i2, d1, d2, phase := 0, 0, 0, 0, 0;
      x1, y, pos, count, dirty := 0, 0, 0, 0, N;
      taken, made, losses, frameOvr, cleared := 0, 0, [0], false, 1;
      new;
      hide AllInt16, PowerOfTwoBlock, Decimated, Weighted, Clamp;
      PowerOfTwoBlockIsPositive();
      assert CicHolds() && DcHolds() && DirtyHolds() && FlagHolds();
      assert RingHolds();
    }

    lemma PowerOfTwoBlockIsPositive()
      requires PowerOfTwoBlock(r, shift)
      ensures r > 0
    {
    }

    ghost function X(): Stream { Shifted(words) }

    /** The integers are the exact sums, wrapped. */
    ghost predicate CicHolds()
      requires r > 0
      reads this
    {
      && phase < r && taken == made * r + phase
      && i1 == Wrap(Sum1(X(), taken)) && i2 == Wrap(Sum2(X(), taken))
      && d1 == Wrap(Sum2(X(), made * r)) && d2 == Wrap(Comb1(X(), r, made * r))
    }

    ghost predicate DcHolds()
      requires r > 0
      reads this
    {
      Blocker(x1, y) == BlockerAt(X(), r, made)
    }

    /** The ring holds the last N outputs, oldest at pos. */
    ghost predicate RingHolds()
      requires r > 0
      reads this, ring
    {
      && ring.Length == N && pos == made % N && count == Count32(made)
      && forall j: nat :: j < N ==> ring[j] == ChainOutput(X(), r, Latest(made, j))
    }

    /** dirty counts down to the moment when the whole ring is younger than the last gap. */
    ghost predicate DirtyHolds()
      reads this
    {
      && losses != []
      && (forall i :: 0 <= i < |losses| ==> losses[i] <= Last(losses) <= made)
      && dirty == if made - Last(losses) >= N then 0 else N - (made - Last(losses))
    }

    /** The flag is up exactly if something was logged since it was taken down. */
    ghost predicate FlagHolds()
      reads this
    {
      cleared <= |losses| && frameOvr == (|losses| > cleared)
    }

    /** Everything but the overruns not checked for yet. */
    ghost predicate Sound()
      reads this, ring
    {
      && PowerOfTwoBlock(r, shift) && AllInt16(X())
      && CicHolds() && DcHolds() && RingHolds() && DirtyHolds() && FlagHolds()
    }

    /** Every overrun up to word n is in the log. */
    ghost predicate NotedTo(n: nat)
      requires r > 0 && losses != []
      reads this
    {
      forall t: nat :: t < n && overrunAt(t) ==> MadeAfter(r, t) <= Last(losses)
    }

    ghost predicate Valid()
      reads this, ring
    {
      Sound() && NotedTo(taken)
    }

    /** The state a launch is made or tested in. */
    ghost function Now(): Snapshot
      reads this
    {
      Snapshot(made, taken, losses)
    }

    lemma NowAccounted()
      requires Valid()
      ensures r > 0 && Accounted(Now(), r, overrunAt)
    {
      DivModUnique(taken, r, made, phase);
    }

    /** The ring's contents in the order the analysis reads them. */
    ghost function Window(): (w: seq<int>)
      requires ring.Length == N
      reads this, ring
    {
      seq(N, (i: nat) reads this, ring requires ring.Length == N => ring[SlotAt(pos, i)])
    }

    lemma WindowIsLatest()
      requires Valid()
      ensures Window() == WindowAt(X(), r, made)
      ensures dirty == 0 <==> Clean(Now())
      ensures dirty == 0 ==> forall t: nat :: t < taken && overrunAt(t) ==> MadeAfter(r, t) + N <= made
    {
      hide ChainOutput, CicHolds, DcHolds, Shifted, AllInt16, Latest, MadeAfter;
      var w, v := Window(), WindowAt(X(), r, made);
      forall i: nat | i < N ensures w[i] == v[i] {
        LatestInOrder(made, i);
      }
    }

    /** Two additions per sample. */
    method Integrate(x: int)
      requires Sound() && x == X()(taken)
      modifies this`i1, this`i2
      ensures i1 == Wrap(Sum1(X(), taken + 1)) && i2 == Wrap(Sum2(X(), taken + 1))
    {
      hide Wrap;
      WrapAdds(Sum1(X(), taken), x);
      i1 := Wrap(i1 + x);
      WrapAdds(Sum2(X(), taken), Sum1(X(), taken + 1));
      i2 := Wrap(i2 + i1);
    }

    /** Two subtractions per output: the exact triangular sum, however often the integrators
        have wrapped. */
    method Comb() returns (c2: int)
      requires PowerOfTwoBlock(r, shift) && AllInt16(X())
      requires i2 == Wrap(Sum2(X(), (made + 1) * r))
      requires d1 == Wrap(Sum2(X(), made * r)) && d2 == Wrap(Comb1(X(), r, made * r))
      modifies this`d1, this`d2
      ensures d1 == Wrap(Sum2(X(), (made + 1) * r)) && d2 == Wrap(Comb1(X(), r, (made + 1) * r))
      ensures c2 == Triangle(X(), r, (made + 1) * r)
    {
      hide Wrap, Triangle, Sum2, PowerOfTwoBlock;
      ghost var n := (made + 1) * r;
      assert n - r == made * r;
      GainIsShift();
      WrapAdds(Sum2(X(), n), Sum2(X(), n - r));
      var c1 := Wrap(i2 - d1);
      assert c1 == Wrap(Comb1(X(), r, n)) by { CombUnfolds(n); }
      d1 := i2;
      WrapAdds(Comb1(X(), r, n), Comb1(X(), r, n - r));
      c2 := Wrap(c1 - d2);
      d2 := c1;
      TriangleFits();
    }

    lemma CombUnfolds(n: nat)
      requires 0 < r <= n
      ensures Comb1(X(), r, n) == Sum2(X(), n) - Sum2(X(), n - r)
    {
    }

    lemma TriangleFits()
      requires PowerOfTwoBlock(r, shift) && AllInt16(X())
      ensures var n := (made + 1) * r;
        Wrap(Comb2(X(), r, n)) == Triangle(X(), r, n)
    {
      hide Wrap, Triangle, AllInt16;
      DecimatedFits(X(), r, made);
      CombsAreTriangle(X(), r, (made + 1) * r);
      MulLe(r, 256, r);
      assert r * r <= 0x1_0000;
      WrapSmall(Triangle(X(), r, (made + 1) * r));
    }

    /** The DC blocker; its state stays inside 17 bits. */
    method Block(s: int) returns (out: int)
      requires r > 0 && AllInt16(X()) && DcHolds() && s == Decimated(X(), r, made)
      modifies this`x1, this`y
      ensures Blocker(x1, y) == BlockerAt(X(), r, made + 1)
      ensures out == ChainOutput(X(), r, made)
    {
      hide Decimated;
      BlockerAtBounded(X(), r, made);
      DecimatedFits(X(), r, made);
      BlockerStaysBounded(BlockerAt(X(), r, made), s);
      var next := y + (s - x1) - y / 256;
      assert -65535 <= next <= 65535;
      x1 := s;
      y := next;
      out := if next > 32767 then 32767 else if next < -32768 then -32768 else next;
    }

    method Store(out: int)
      requires r > 0 && RingHolds() && DirtyHolds() && out == ChainOutput(X(), r, made)
      modifies this`pos, this`count, this`dirty, this`made, ring
      ensures made == old(made) + 1 && count == Count32(old(count) + 1)
      ensures RingHolds() && DirtyHolds()
    {
      hide ChainOutput, Latest, Count32;
      ring[pos] := out;
      pos := (pos + 1) % N;
      CountNext(made);
      count := Count32(count + 1);
      if dirty > 0 {
        dirty := dirty - 1;
      }
      made := made + 1;
      forall j: nat | j < N ensures ring[j] == ChainOutput(X(), r, Latest(made, j)) {
        LatestAdvances(old(made), j);
      }
    }

    method PushInput(x: int)
      requires Sound() && x == X()(taken)
      modifies this, ring
      ensures Sound() && taken == old(taken) + 1 && losses == old(losses) && cleared == old(cleared)
      ensures old(phase) + 1 < r ==> made == old(made) && phase == old(phase) + 1
      ensures old(phase) + 1 == r ==> made == old(made) + 1 && phase == 0
      ensures count == if made == old(made) then old(count) else Count32(old(count) + 1)
    {
      hide Wrap, Sum1, Sum2, Comb1, BlockerAt, ChainOutput, Triangle, Shifted, PowerOfTwoBlock, AllInt16;
      GainIsShift();
      Integrate(x);
      taken := taken + 1;
      phase := phase + 1;
      if phase < r {
        return;
      }
      phase := 0;
      assert taken == (made + 1) * r by {
        assert (made + 1) * r == made * r + r;
      }
      var c2 := Comb();
      var s := c2 / Pow2(shift);
      var out := Block(s);
      Store(out);
    }

    lemma GainIsShift()
      requires PowerOfTwoBlock(r, shift)
      ensures r > 0 && r * r == Pow2(shift)
    {
    }

    /** Mark the window dirty and raise the flag. */
    method NoteOverrun()
      requires Sound()
      modifies this`dirty, this`losses, this`frameOvr
      ensures Valid() && losses == old(losses) + [made] && frameOvr
    {
      hide Wrap, Sum1, Sum2, Comb1, BlockerAt, ChainOutput, Triangle, Shifted, PowerOfTwoBlock, AllInt16, MadeAfter;
      GainIsShift();
      dirty, frameOvr := N, true;
      losses := losses + [made];
      assert Last(losses) == made;
      assert DirtyHolds() && FlagHolds();
      assert Sound();
      forall t: nat | t < taken && overrunAt(t) ensures MadeAfter(r, t) <= Last(losses) {
        MadeCounts(r, made, phase, t);
      }
    }

    /** The clean slate before the loop: the window is dirty and the flag is down. */
    method StartOver()
      requires Valid()
      modifies this`dirty, this`losses, this`frameOvr, this`cleared
      ensures Valid() && losses == old(losses) + [made] && !frameOvr && cleared == |losses|
    {
      NoteOverrun();
      ClearFlag();
    }

    method ClearFlag()
      requires Valid()
      modifies this`frameOvr, this`cleared
      ensures Valid() && !frameOvr && cleared == |losses|
    {
      hide Wrap, Sum1, Sum2, Comb1, BlockerAt, ChainOutput, Triangle, Shifted, PowerOfTwoBlock, AllInt16, MadeAfter;
      GainIsShift();
      frameOvr, cleared := false, |losses|;
      assert Sound();
    }

    lemma NothingNew(n: nat)
      requires r > 0 && losses != [] && NotedTo(n) && !overrunAt(n)
      ensures NotedTo(n + 1)
    {
    }

    /** The outputs made are those of the last word. */
    lemma MadeNow()
      requires Sound() && taken > 0
      ensures r > 0 && made == MadeAfter(r, taken - 1)
    {
      hide MadeAfter;
      MadeCounts(r, made, phase, taken - 1);
    }

    /** Take the words the receiver holds right now; the flag is looked at once, afterwards. */
    method Drain(available: nat)
      requires Valid()
      modifies this, ring
      ensures Valid() && taken == old(taken) + available && made >= old(made) && cleared == old(cleared)
      ensures losses == old(losses) + if exists t: nat :: old(taken) <= t < taken && overrunAt(t) then [made] else []
    {
      hide Sound, MadeAfter;
      CountsMade();
      var k, flag := 0, false;
      while k < available
        invariant k <= available && Sound() && taken == old(taken) + k && losses == old(losses) != []
        invariant made >= old(made) && r > 0 && cleared == old(cleared)
        invariant flag <==> exists t: nat :: old(taken) <= t < taken && overrunAt(t)
        invariant !flag ==> NotedTo(taken)
      {
        CountsMade();
        if !flag && !overrunAt(taken) {
          NothingNew(taken);
        }
        PushInput(Next());
        flag := flag || overrunAt(taken - 1);
        k := k + 1;
      }
      if flag {
        NoteOverrun();
      }
    }

    /** The next word, shifted. */
    function Next(): (x: int)
      reads this
      ensures x == X()(taken)
    {
      words(taken) / IN_SHIFT
    }

    /** Block until n more samples have reached the ring. The target wraps with the 32-bit
        count: it is met by exactly n outputs if count + n does not wrap, and by none if it
        does. */
    method Pump(n: nat)
      requires Valid() && n < 0x1_0000_0000
      modifies this, ring
      ensures Valid()
      ensures old(count) + n < 0x1_0000_0000 ==> made == old(made) + n && (n > 0 ==> phase == 0)
      ensures old(count) + n >= 0x1_0000_0000 ==> made == old(made) && taken == old(taken)
      ensures taken >= old(taken) && r > 0 && losses == old(losses) + PumpLosses(r, overrunAt, old(taken), taken)
      ensures Grown(old(losses), losses, old(made)) && cleared == old(cleared)
    {
      hide Sound, MadeAfter, Count32, PumpLosses;
      CountsMade();
      var target := Count32(count + n);
      ghost var goal := made + n;
      ghost var runs := count + n < 0x1_0000_0000;
      NoLosses(r, overrunAt, taken);
      while count < target
        invariant Valid() && phase < r && count < 0x1_0000_0000
        invariant runs ==> made <= goal && count == target - (goal - made)
        invariant runs && made == goal && n > 0 ==> phase == 0
        invariant !runs ==> made == old(made) && taken == old(taken) && count == old(count)
        invariant taken >= old(taken) && losses == old(losses) + PumpLosses(r, overrunAt, old(taken), taken)
        invariant made >= old(made) && Grown(old(losses), losses, old(made)) && cleared == old(cleared)
        decreases target - count, r - phase
      {
        if !overrunAt(taken) {
          NothingNew(taken);
        }
        PushInput(Next());
        CountsMade();
        MadeNow();
        LossesNext(r, overrunAt, old(taken), taken);
        if overrunAt(taken - 1) {
          NoteOverrun();
        }
      }
    }

    lemma CountsMade()
      requires Sound()
      ensures losses != [] && phase < r && count < 0x1_0000_0000 && (made < 0x1_0000_0000 ==> count == made)
    {
    }

    /** Copy the ring into the engine's page, oldest first, windowed. */
    method FillFft(fft: Engine)
      requires Valid() && fft.Valid() && fft.plan.N() == N
      modifies fft
      ensures fft.Valid() && fft.Result() == old(fft.Result()) && fft.launched == old(fft.launched)
      ensures fft.Page() == Windowed(WindowAt(X(), r, made))
      ensures fft.busy ==> old(fft.busy)
    {
      hide Transform, ChainOutput, Narrow, Windowed, WindowAt, FilledTo, Valid, Window;
      RingFits();
      WindowIsLatest();
      ghost var win := Window();
      NothingFilled(fft.Page(), win);
      var at := FillRise(fft, win);
      FillFall(fft, win, at);
      FilledUp(fft.Page(), win);
    }

    ghost predicate RingShows(win: seq<int>)
      reads this, ring
    {
      && ring.Length == |win| == N && pos < N
      && forall j: nat :: j < N ==> IsInt16(ring[j]) && win[j] == ring[SlotAt(pos, j)]
    }

    /** The rising half of the triangle; returns the slot to go on from. */
    method FillRise(fft: Engine, ghost win: seq<int>) returns (at: nat)
      requires fft.Valid() && fft.plan.N() == N && RingShows(win) && FilledTo(fft.Page(), win, 0)
      modifies fft
      ensures fft.Valid() && fft.Result() == old(fft.Result()) && (fft.busy ==> old(fft.busy))
      ensures fft.launched == old(fft.launched)
      ensures FilledTo(fft.Page(), win, N / 2) && at == SlotAt(pos, N / 2)
    {
      hide Transform, Narrow, FilledTo, Weight, SlotAt;
      at := pos;
      SlotFirst(pos);
      var i, w := 0, 0;
      while i < N / 2
        invariant i <= N / 2 && at == SlotAt(pos, i) && w == 64 * i
        invariant fft.Valid() && fft.Result() == old(fft.Result()) && (fft.busy ==> old(fft.busy))
        invariant fft.launched == old(fft.launched)
        invariant FilledTo(fft.Page(), win, i)
      {
        WeightSlopes(i);
        WriteWindowed(fft, win, i, ring[at], w);
        SlotNext(pos, i);
        at := (at + 1) % N;
        w := w + 64;
        i := i + 1;
      }
    }

    /** The falling half. The clamp of the weight never acts. */
    method FillFall(fft: Engine, ghost win: seq<int>, start: nat)
      requires fft.Valid() && fft.plan.N() == N && RingShows(win) && FilledTo(fft.Page(), win, N / 2)
      requires start == SlotAt(pos, N / 2)
      modifies fft
      ensures fft.Valid() && fft.Result() == old(fft.Result()) && (fft.busy ==> old(fft.busy))
      ensures fft.launched == old(fft.launched)
      ensures FilledTo(fft.Page(), win, N)
    {
      hide Transform, Narrow, FilledTo, Weight, SlotAt;
      var i, at, w := N / 2, start, 32768 - 64;
      while i < N
        invariant N / 2 <= i <= N && at == SlotAt(pos, i) && w == 64 * (N - 1 - i)
        invariant fft.Valid() && fft.Result() == old(fft.Result()) && (fft.busy ==> old(fft.busy))
        invariant fft.launched == old(fft.launched)
        invariant FilledTo(fft.Page(), win, i)
      {
        WeightSlopes(i);
        WriteWindowed(fft, win, i, ring[at], if w > 32767 then 32767 else w);
        SlotNext(pos, i);
        at := (at + 1) % N;
        w := w - 64;
        i := i + 1;
      }
    }

    /** One weighted sample into the engine's page. */
    method WriteWindowed(fft: Engine, ghost win: seq<int>, i: nat, s: int, w: int)
      requires fft.Valid() && fft.plan.N() == N && |win| == N && FilledTo(fft.Page(), win, i)
      requires i < N && s == win[i] && IsInt16(s) && w == Weight(i)
      modifies fft
      ensures fft.Valid() && fft.Result() == old(fft.Result()) && (fft.busy ==> old(fft.busy))
      ensures fft.launched == old(fft.launched)
      ensures FilledTo(fft.Page(), win, i + 1)
    {
      hide Transform, Narrow;
      WindowedFits(s, i);
      fft.Write(i, s * w / 32768, 0);
    }

    /** The bins the analysis looks at. */
    method ReadSpectrum(fft: Engine) returns (bins: seq<C16>)
      requires fft.Valid() && fft.plan.N() == N
      modifies fft
      ensures fft.Valid() && fft.Page() == old(fft.Page()) && fft.Result() == old(fft.Result())
      ensures fft.launched == old(fft.launched) && (old(fft.busy || fft.done) ==> fft.busy || fft.done)
      ensures bins == fft.Page()[35..223]
    {
      hide Transform;
      bins := [];
      var k := KLO;
      while k <= KHI
        invariant fft.Valid() && KLO <= k <= KHI + 1 && bins == fft.Page()[KLO..k]
        invariant fft.Page() == old(fft.Page()) && fft.Result() == old(fft.Result())
        invariant fft.launched == old(fft.launched) && (old(fft.busy || fft.done) ==> fft.busy || fft.done)
      {
        var bin := fft.Read(k);
        bins := bins + [bin];
        k := k + 1;
      }
    }

    /** One hop's worth of samples, in slices; the display may drain the receiver in between,
        any number of times. */
    method AwaitHop()
      requires Valid()
      modifies this, ring
      ensures Valid() && made >= old(made) && taken >= old(taken)
      ensures Grown(old(losses), losses, old(made))
      ensures Quiet(overrunAt, old(taken), taken) ==> losses == old(losses)
      ensures forall m: nat :: m <= old(made) ==> HopApart(m, made)
      ensures made < 0x1_0000_0000 - 256 ==> made >= old(made) + 256
      ensures cleared == old(cleared)
    {
      hide Valid, Grown, PumpLosses, MadeAfter;
      var step := 0;
      LogStays(losses, made);
      while step < ANIM_STEPS
        invariant step <= ANIM_STEPS && Valid() && made >= old(made) && taken >= old(taken) && cleared == old(cleared)
        invariant Grown(old(losses), losses, old(made))
        invariant Quiet(overrunAt, old(taken), taken) ==> losses == old(losses)
        invariant made < 0x1_0000_0000 - HOP ==> made >= old(made) + step * (HOP / ANIM_STEPS)
      {
        ghost var before, since, heard := losses, made, taken;
        ValidCounts();
        Pump(HOP / ANIM_STEPS);
        if Quiet(overrunAt, heard, taken) {
          QuietPump(r, overrunAt, heard, taken);
        }
        GrownTwice(old(losses), before, losses, old(made), since);
        Yield();
        step := step + 1;
      }
    }

    /** What a display push or a line of text does to the stream: any number of drains. */
    method Yield()
      requires Valid()
      modifies this, ring
      ensures Valid() && made >= old(made) && taken >= old(taken) && cleared == old(cleared)
      ensures Grown(old(losses), losses, old(made))
      ensures Quiet(overrunAt, old(taken), taken) <==> losses == old(losses)
      ensures forall before: seq<nat>, low: nat :: Grown(before, old(losses), low) && low <= old(made) ==>
        Grown(before, losses, low)
    {
      hide Valid;
      var drains: nat :| drains >= 0;
      while drains > 0
        invariant Valid() && made >= old(made) && taken >= old(taken) && cleared == old(cleared)
        invariant Grown(old(losses), losses, old(made))
        invariant Quiet(overrunAt, old(taken), taken) <==> losses == old(losses)
      {
        var available: nat :| available >= 0;
        Drain(available);
        drains := drains - 1;
      }
    }

    lemma LogStays(log: seq<nat>, low: nat)
      ensures Grown(log, log, low)
    {
    }

    lemma ValidCounts()
      requires Valid()
      ensures Sound() && r > 0 && count < 0x1_0000_0000 && (made < 0x1_0000_0000 ==> count == made)
    {
      CountsMade();
    }

    /** The launches so far are what the engine was given, its next result belongs to the last of
        them, and nothing but later losses has been logged since each. */
    ghost predicate Streaming(fft: Engine, base: seq<Frame>, launches: seq<Launch>)
      reads this, fft
    {
      && r > 0 && fft.Valid() && fft.plan.N() == N && (fft.busy || fft.done)
      && launches != [] && fft.launched == base + Frames(X(), r, launches)
      && fft.Result() == SpectrumOf(fft.plan, X(), r, launches[|launches| - 1].at.made)
      && Logged(launches, r, overrunAt, losses, made)
    }

    /** Fill the page and launch it. */
    method LaunchFrame(fft: Engine)
      requires Valid() && fft.Valid() && fft.plan.N() == N && !fft.busy && r > 0
      modifies fft
      ensures fft.Valid() && fft.busy && fft.Page() == old(fft.Result())
      ensures fft.launched == old(fft.launched) + [Windowed(WindowAt(X(), r, made))]
      ensures fft.Result() == SpectrumOf(fft.plan, X(), r, made)
    {
      hide Valid, Transform, SpectrumOf, Windowed, WindowAt;
      FillFft(fft);
      fft.FftStart();
      SpectrumBegins(fft.plan, X(), r, made);
    }

    /** After a launch the overrun message, if the flag is up, and only then the test. */
    method PrintOverrun() returns (ghost l: Launch)
      requires Valid() && r > 0
      modifies this, ring
      ensures Valid() && made >= old(made) && taken >= old(taken)
      ensures l == Launch(old(Now()), old(frameOvr), Now()) && Tested(l, r, overrunAt)
      ensures Grown(old(losses), losses, old(made)) && (Quiet(overrunAt, old(taken), taken) ==> losses == old(losses))
      ensures l.flag == (|l.at.losses| > old(cleared)) && cleared == |l.at.losses|
    {
      hide Sound, NotedTo, Accounted;
      ghost var at, flag := Now(), frameOvr;
      NowAccounted();
      FlagTells();
      LogStays(losses, made);
      if frameOvr {
        ClearFlag();
        Yield();
        NowAccounted();
      }
      l := Launch(at, flag, Now());
    }

    lemma FlagTells()
      requires Valid()
      ensures cleared <= |losses| && frameOvr == (|losses| > cleared)
    {
    }

    /** One pass of the loop: await a hop, and if the transform is complete launch the next frame,
        report an overrun, and then, if the ring is clean, analyse the frame before. */
    method Hop(fft: Engine, ghost base: seq<Frame>, ghost launches: seq<Launch>, k: nat)
      returns (ok: bool, news: seq<Reading>, ghost l: Launch)
      requires Valid() && Streaming(fft, base, launches) && k == |launches|
      modifies this, ring, fft
      ensures Valid() && fft.Valid() && made >= old(made) && Grown(old(losses), losses, old(made))
      ensures taken >= old(taken) && (Quiet(overrunAt, old(taken), taken) ==> losses == old(losses))
      ensures !ok ==> Streaming(fft, base, launches) && news == [] && cleared == old(cleared)
      ensures !ok ==> fft.latency(|fft.launched| - 1) >= SPIN_LIMIT
      ensures ok ==> Streaming(fft, base, launches + [l])
      ensures ok ==> forall m: nat :: m <= old(made) ==> HopApart(m, l.at.made)
      ensures ok ==> l.flag == (|l.at.losses| > old(cleared)) && cleared == |l.at.losses|
      ensures ok ==> var spectrum := SpectrumOf(fft.plan, X(), r, launches[k - 1].at.made);
        news == if Clean(l.test) then [Reading(k, spectrum[KLO..KHI + 1])] else []
    {
      hide Valid, Transform, SpectrumOf, HopApart, Clean, Frames, Logged, Tested, Grown, Windowed, WindowAt;
      ghost var old0, made0 := losses, made;
      AwaitHop();
      LoggedLater(launches, r, overrunAt, old0, made0, losses, made);
      ok := fft.FftWait();
      news, l := [], Launch(Now(), false, Now());
      ghost var old1, made1 := losses, made;
      if ok {
        news, l := LaunchAndAnalyse(fft, base, launches, k);
      } else {
        Yield();
        LoggedLater(launches, r, overrunAt, old1, made1, losses, made);
      }
      GrownTwice(old0, old1, losses, made0, made1);
    }

    /** The pass after a successful wait. */
    method LaunchAndAnalyse(fft: Engine, ghost base: seq<Frame>, ghost launches: seq<Launch>, k: nat)
      returns (news: seq<Reading>, ghost l: Launch)
      requires Valid() && Streaming(fft, base, launches) && k == |launches| && !fft.busy
      modifies this, ring, fft
      ensures Valid() && made >= old(made) && taken >= old(taken)
      ensures Grown(old(losses), losses, old(made)) && (Quiet(overrunAt, old(taken), taken) ==> losses == old(losses))
      ensures l.at == old(Now()) && Streaming(fft, base, launches + [l])
      ensures l.flag == (|l.at.losses| > old(cleared)) && cleared == |l.at.losses|
      ensures var spectrum := SpectrumOf(fft.plan, X(), r, launches[k - 1].at.made);
        news == if Clean(l.test) then [Reading(k, spectrum[KLO..KHI + 1])] else []
    {
      hide Valid, Transform, SpectrumOf, Clean, Frames, Logged, Tested, Grown, Windowed, WindowAt;
      ghost var old1, made1 := losses, made;
      news := [];
      LaunchFrame(fft);
      l := PrintOverrun();
      LoggedLater(launches, r, overrunAt, old1, made1, losses, made);
      LoggedNext(launches, l, r, overrunAt);
      FramesNext(X(), r, launches, l);
      WindowIsLatest();
      ghost var old2, made2 := losses, made;
      if dirty == 0 {
        var bins := ReadSpectrum(fft);
        news := [Reading(k, bins)];
        Yield();
      } else {
        LogStays(losses, made);
      }
      LoggedLater(launches + [l], r, overrunAt, old2, made2, losses, made);
      GrownTwice(old1, old2, losses, made1, made2);
    }

    /** The board's main loop, for any number of hops and any engine latency. The engine is given
        exactly the windows the ring held at the launches, one per successful wait after the first;
        a wait fails only if that launch outlasts the spin bound; and launch k > 0 leads to a
        reading, the spectrum of launch k - 1, exactly when the ring is clean at the test, which is
        the launch itself unless a loss was logged since the launch before. */
    method RunHops(fft: Engine, hops: nat)
      returns (readings: seq<Reading>, waits: seq<bool>, ghost launches: seq<Launch>)
      requires Valid() && fft.Valid() && fft.plan.N() == N && !fft.busy
      modifies this, ring, fft
      ensures Valid() && r > 0 && fft.Valid()
      ensures |waits| == hops && |launches| == 1 + Successes(waits, hops)
      ensures fft.launched == old(fft.launched) + Frames(X(), r, launches)
      ensures readings == Readings(fft.plan, X(), r, launches, |launches|)
      ensures Logged(launches, r, overrunAt, losses, made)
      ensures Grown(old(losses) + [old(made)], losses, old(made))
      ensures FlagsHold(launches, |old(losses)| + 1)
      ensures old(count) + N < 0x1_0000_0000 ==> launches[0].at.made == old(made) + N
      ensures forall k :: 0 < k < |launches| ==> HopApart(launches[k - 1].at.made, launches[k].at.made)
      ensures forall h :: 0 <= h < hops && !waits[h] ==>
        fft.latency(|old(fft.launched)| + Successes(waits, h)) >= SPIN_LIMIT
      ensures (forall n: nat :: fft.latency(n) < SPIN_LIMIT) ==> |launches| == 1 + hops
      ensures Quiet(overrunAt, old(taken), taken) && old(count) + N < 0x1_0000_0000 ==> |readings| == |launches| - 1
    {
      hide Valid, Transform, Frames, Logged, Grown, Readings, Streaming, RunsTo, HopApart, Successes, FlagsHold;
      ghost var base, low, first := fft.launched, made, taken;
      LogBelow();
      launches := Prime(fft);
      readings, waits := [], [];
      ghost var start := old(losses) + [low];
      RunBegins(fft, base, launches, start, low, first);
      var k := 1;
      while |waits| < hops
        invariant |waits| <= hops && Valid() && k == |launches| > 0
        invariant RunsTo(fft, base, launches, readings, waits, start, low, first)
        invariant old(count) + N < 0x1_0000_0000 ==> launches[0].at.made == old(made) + N
      {
        readings, waits, launches, k := Advance(fft, base, launches, readings, waits, start, low, first, k);
      }
      RunEnds(fft, base, launches, readings, waits, start, low, first);
      if forall n: nat :: fft.latency(n) < SPIN_LIMIT {
        AllSucceed(waits, hops);
      }
      if Quiet(overrunAt, old(taken), taken) && old(count) + N < 0x1_0000_0000 {
        AllClean(fft.plan, launches, start, low);
      }
    }

    /** What is known of a run of the loop so far. */
    ghost predicate RunsTo(fft: Engine, base: seq<Frame>, launches: seq<Launch>, readings: seq<Reading>,
                           waits: seq<bool>, start: seq<nat>, low: nat, first: nat)
      reads this, fft
    {
      && Streaming(fft, base, launches)
      && |launches| == 1 + Successes(waits, |waits|)
      && readings == Readings(fft.plan, X(), r, launches, |launches|)
      && Grown(start, losses, low) && low <= made
      && first <= taken && (Quiet(overrunAt, first, taken) ==> losses == start)
      && FlagsHold(launches, |start|) && cleared == FlagBase(launches, |start|, |launches|)
      && (forall j :: 0 < j < |launches| ==> HopApart(launches[j - 1].at.made, launches[j].at.made))
      && forall h :: 0 <= h < |waits| && !waits[h] ==> fft.latency(|base| + Successes(waits, h)) >= SPIN_LIMIT
    }

    lemma RunBegins(fft: Engine, base: seq<Frame>, launches: seq<Launch>, start: seq<nat>, low: nat, first: nat)
      requires Streaming(fft, base, launches) && |launches| == 1 && Grown(start, losses, low) && low <= made
      requires first <= taken && (Quiet(overrunAt, first, taken) ==> losses == start) && cleared == |start|
      ensures RunsTo(fft, base, launches, [], [], start, low, first)
    {
      hide Frames, Logged, Grown, HopApart, SpectrumOf, Transform;
      NoReadings(fft.plan, X(), r, launches);
      NoWaits([]);
    }

    lemma RunEnds(fft: Engine, base: seq<Frame>, launches: seq<Launch>, readings: seq<Reading>, waits: seq<bool>,
                  start: seq<nat>, low: nat, first: nat)
      requires RunsTo(fft, base, launches, readings, waits, start, low, first)
      ensures r > 0 && fft.Valid() && fft.plan.N() == N && |launches| == 1 + Successes(waits, |waits|)
      ensures fft.launched == base + Frames(X(), r, launches) && Logged(launches, r, overrunAt, losses, made)
      ensures readings == Readings(fft.plan, X(), r, launches, |launches|) && Grown(start, losses, low)
      ensures first <= taken && (Quiet(overrunAt, first, taken) ==> losses == start) && FlagsHold(launches, |start|)
      ensures forall j :: 0 < j < |launches| ==> HopApart(launches[j - 1].at.made, launches[j].at.made)
      ensures forall h :: 0 <= h < |waits| && !waits[h] ==> fft.latency(|base| + Successes(waits, h)) >= SPIN_LIMIT
    {
      hide Frames, Logged, Grown, HopApart, SpectrumOf, Transform, Readings, Successes, FlagsHold, FlagBase, Quiet;
      hide Streaming;
      LastLaunch(fft, base, launches);
    }

    lemma AllClean(plan: Plan<C16>, launches: seq<Launch>, start: seq<nat>, low: nat)
      requires plan.Valid() && plan.N() == N && r > 0 && launches != [] && Logged(launches, r, overrunAt, losses, made)
      requires losses == start && (forall i :: 0 <= i < |start| ==> start[i] <= low) && launches[0].at.made == low + N
      requires forall j :: 0 < j < |launches| ==> HopApart(launches[j - 1].at.made, launches[j].at.made)
      ensures |Readings(plan, X(), r, launches, |launches|)| == |launches| - 1
    {
      hide Readings, Accounted, Quiet;
      QuietReadings(plan, X(), r, launches, start, low, |launches|);
    }

    lemma LogBelow()
      requires Valid()
      ensures forall i :: 0 <= i < |losses| ==> losses[i] <= made
    {
    }

    /** A full ring before the first launch. */
    method Prime(fft: Engine) returns (ghost launches: seq<Launch>)
      requires Valid() && fft.Valid() && fft.plan.N() == N && !fft.busy
      modifies this, ring, fft
      ensures Valid() && |launches| == 1 && Streaming(fft, old(fft.launched), launches)
      ensures Grown(old(losses) + [old(made)], losses, old(made)) && made >= old(made)
      ensures taken >= old(taken) && (Quiet(overrunAt, old(taken), taken) ==> losses == old(losses) + [old(made)])
      ensures old(count) + N < 0x1_0000_0000 ==> launches[0].at.made == old(made) + N
      ensures cleared == |old(losses)| + 1
    {
      hide Valid, Transform, SpectrumOf, Frames, Logged, Grown, Tested, Windowed, WindowAt;
      ValidCounts();
      StartOver();
      Pump(N);
      if Quiet(overrunAt, old(taken), taken) {
        QuietPump(r, overrunAt, old(taken), taken);
      }
      NothingLaunched(X(), r, overrunAt, losses, made);
      LaunchFrame(fft);
      ghost var l := Launch(Now(), false, Now());
      NotTested(l);
      FramesNext(X(), r, [], l);
      LoggedNext([], l, r, overrunAt);
      launches := [l];
      assert [] + [l] == launches;
    }

    lemma NotTested(l: Launch)
      requires Valid() && l == Launch(Now(), false, Now())
      ensures r > 0 && Tested(l, r, overrunAt)
    {
      hide Accounted, Sound, NotedTo;
      NowAccounted();
      LogStays(losses, made);
    }

    /** One more pass. */
    method Advance(fft: Engine, ghost base: seq<Frame>, ghost launches: seq<Launch>, readings: seq<Reading>,
                   waits: seq<bool>, ghost start: seq<nat>, ghost low: nat, ghost first: nat, k: nat)
      returns (readings': seq<Reading>, waits': seq<bool>, ghost launches': seq<Launch>, k': nat)
      requires Valid() && RunsTo(fft, base, launches, readings, waits, start, low, first) && k == |launches|
      modifies this, ring, fft
      ensures Valid() && RunsTo(fft, base, launches', readings', waits', start, low, first) && k' == |launches'|
      ensures |waits'| == |waits| + 1 && launches != [] && launches' != [] && launches'[0] == launches[0]
    {
      hide Valid, Transform, SpectrumOf, HopApart, Clean, Frames, Logged, Grown, Readings, Streaming, Successes;
      hide FlagsHold, FlagBase;
      ghost var before, since := losses, made;
      LastLaunch(fft, base, launches);
      var ok, news;
      ghost var l;
      ok, news, l := Hop(fft, base, launches, k);
      GrownTwice(start, before, losses, low, since);
      WaitsNext(waits, ok);
      launches', k' := launches, k;
      if ok {
        ReadingsNext(fft.plan, X(), r, launches, l);
        FlagsNext(launches, l, |start|);
        launches', k' := launches + [l], k + 1;
      } else {
        LastLaunch(fft, base, launches);
      }
      waits', readings' := waits + [ok], readings + news;
    }

    lemma LastLaunch(fft: Engine, base: seq<Frame>, launches: seq<Launch>)
      requires Streaming(fft, base, launches)
      ensures r > 0 && fft.Valid() && fft.plan.N() == N && launches != []
      ensures |fft.launched| == |base| + |launches| && launches[|launches| - 1].at.made <= made
      ensures fft.launched == base + Frames(X(), r, launches) && Logged(launches, r, overrunAt, losses, made)
    {
      hide Transform, SpectrumOf, Frames, Accounted, Grown, Quiet;
    }

    lemma RingFits()
      requires Valid()
      ensures RingShows(Window())
    {
      hide BlockerAt, Latest, CicHolds, DcHolds, AllInt16, Shifted;
    }
  }
}
