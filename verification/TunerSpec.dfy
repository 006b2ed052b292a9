/** What the acquisition and analysis loop of sim/sw/guitar_tuner/guitar_tuner.c is to do: the window,
    the ring's layout, the log of losses, and what a run of launches leads to. */
module TunerSpec {

  import opened PowersOfTwo
  import opened Decimator
  import opened FftSchedule
  import opened FixedPoint
  import opened FftDriver

  const N := 1024
  const HOP := 256
  const ANIM_STEPS := 4
  const IN_SHIFT := 256
  /** First and last bin the analysis reads. */
  const KLO := 35
  const KHI := 222

  /** The top sixteen of the microphone's 24 bits. */
  function Shifted(words: nat -> int): Stream { (i: nat) => words(i) / IN_SHIFT }

  /** The low eight bits are cut off, and a 24-bit word becomes a 16-bit sample. */
  lemma ShiftedIsTop(words: nat -> int, i: nat)
    ensures var s := Shifted(words)(i); 256 * s <= words(i) < 256 * (s + 1)
    ensures -0x80_0000 <= words(i) < 0x80_0000 ==> IsInt16(Shifted(words)(i))
  {
  }

  predicate PowerOfTwoBlock(r: nat, shift: nat) { 0 < r <= 256 && r * r == Pow2(shift) }

  /** The window the ring holds after m outputs, oldest first; silence before the first. */
  function WindowAt(x: Stream, r: nat, m: nat): (w: seq<int>)
    requires r > 0
    ensures |w| == N
  {
    seq(N, (i: nat) => ChainOutput(x, r, m - N + i))
  }

  /** The triangular analysis window: 0 at both ends, 32704/32768 in the middle. */
  function Weight(i: nat): int { 64 * (if i < N / 2 then i else N - 1 - i) }

  lemma WeightIsSymmetric(i: nat)
    requires i < N
    ensures Weight(i) == Weight(N - 1 - i) && 0 <= Weight(i) < 32767
    ensures i + 1 < N / 2 ==> Weight(i + 1) == Weight(i) + 64
    ensures Weight(0) == 0 && Weight(511) == 32704
  {
  }

  lemma WeightSlopes(i: nat)
    requires i < N
    ensures i < N / 2 ==> Weight(i) == 64 * i
    ensures i >= N / 2 ==> Weight(i) == 64 * (N - 1 - i) <= 32767
  {
  }

  function Windowed(w: seq<int>): (f: Frame)
    requires |w| == N
    ensures |f| == N
  {
    seq(N, i requires 0 <= i < N => C16(w[i] * Weight(i) / 32768, 0))
  }

  /** Each sample is weighted in Q15, rounding down, and is real. */
  lemma WindowedRoundsDown(w: seq<int>, i: nat)
    requires |w| == 1024 && i < 1024
    ensures var s := Windowed(w)[i]; 32768 * s.re <= w[i] * Weight(i) < 32768 * (s.re + 1) && s.im == 0
  {
  }

  /** The first i entries of the page hold the windowed samples. */
  ghost predicate FilledTo(page: Frame, w: seq<int>, i: nat) {
    && |page| == |w| == N && i <= N
    && forall j :: 0 <= j < i ==> page[j] == Windowed(w)[j]
  }

  lemma NothingFilled(page: Frame, w: seq<int>)
    requires |page| == |w| == N
    ensures FilledTo(page, w, 0)
  {
  }

  lemma FilledUp(page: Frame, w: seq<int>)
    requires FilledTo(page, w, N)
    ensures page == Windowed(w)
  {
    hide Windowed;
  }

  lemma WindowedFits(s: int, i: nat)
    requires IsInt16(s) && i < N
    ensures IsInt16(s * Weight(i) / 32768)
  {
    var w := Weight(i);
    assert 0 <= w <= 32768;
    MulLe(-32768, s, w);
    MulLe(s, 32767, w);
  }

  /** A 32-bit unsigned counter after n increments. */
  function Count32(n: nat): (c: nat)
    ensures c < 0x1_0000_0000
    ensures n < 0x1_0000_0000 ==> c == n
    ensures 0x1_0000_0000 <= n < 0x2_0000_0000 ==> c == n - 0x1_0000_0000
  {
    n % 0x1_0000_0000
  }

  /** The loop that waits for n more outputs is entered exactly when its target does not wrap. */
  lemma TargetWraps(made: nat, n: nat)
    requires n < 0x1_0000_0000
    ensures Count32(made) < Count32(Count32(made) + n) <==> n > 0 && Count32(made) + n < 0x1_0000_0000
  {
  }

  /** A run of 2^32 - 64 outputs reaches such a point: the next slice of a hop waits for nothing. */
  lemma SliceStalls(made: nat)
    requires made == 0x1_0000_0000 - HOP / ANIM_STEPS
    ensures !(Count32(made) < Count32(Count32(made) + HOP / ANIM_STEPS))
  {
    TargetWraps(made, HOP / ANIM_STEPS);
  }

  lemma CountNext(n: nat)
    ensures Count32(Count32(n) + 1) == Count32(n + 1)
  {
  }

  /** The index of the latest of m outputs that went to slot j; negative if none did. */
  function Latest(m: nat, j: nat): int { m - 1 - (m - 1 - j) % N }

  lemma LatestAdvances(m: nat, j: nat)
    requires j < N
    ensures Latest(m + 1, j) == if j == m % N then m else Latest(m, j)
  {
    var q, t := m / N, m % N;
    assert m == q * N + t;
    if j <= t {
      DivModUnique(m - j, N, q, t - j);
      if j < t {
        DivModUnique(m - 1 - j, N, q, t - j - 1);
      }
    } else {
      DivModUnique(m - j, N, q - 1, t - j + N);
      DivModUnique(m - 1 - j, N, q - 1, t - j - 1 + N);
    }
  }

  /** Reading from slot m % N upwards meets the last N outputs, oldest first. */
  lemma LatestInOrder(m: nat, i: nat)
    requires i < N
    ensures (m % N + i) % N == (m + i) % N < N
    ensures Latest(m, (m + i) % N) == m - N + i
  {
    var q, t := m / N, m % N;
    if t + i < N {
      DivModUnique(m + i, N, q, t + i);
      DivModUnique(m - 1 - (t + i), N, q - 1, N - 1 - i);
    } else {
      DivModUnique(m + i, N, q + 1, t + i - N);
      DivModUnique(m - 1 - (t + i - N), N, q, N - 1 - i);
    }
  }

  /** How many outputs have been made once word t has been read. */
  function MadeAfter(r: nat, t: nat): nat
    requires r > 0
  {
    (t + 1) / r
  }

  lemma MadeCounts(r: nat, made: nat, phase: nat, t: nat)
    requires phase < r && t < made * r + phase
    ensures MadeAfter(r, t) <= made
    ensures t + 1 == made * r + phase ==> MadeAfter(r, t) == made
  {
    var q, b := (t + 1) / r, (t + 1) % r;
    assert t + 1 == q * r + b;
    assert (made + 1) * r == made * r + r;
    if q > made {
      MulLe(made + 1, q, r);
    }
    if t + 1 == made * r + phase {
      DivModUnique(t + 1, r, made, phase);
    }
  }

  /** The losses the blocking path logs: at every word whose overrun flag is up. */
  ghost function PumpLosses(r: nat, overrunAt: nat -> bool, first: nat, next: nat): (ls: seq<nat>)
    requires r > 0
    decreases next
  {
    if next <= first then []
    else PumpLosses(r, overrunAt, first, next - 1) + if overrunAt(next - 1) then [MadeAfter(r, next - 1)] else []
  }

  lemma NoLosses(r: nat, overrunAt: nat -> bool, first: nat)
    requires r > 0
    ensures PumpLosses(r, overrunAt, first, first) == []
  {
  }

  lemma LossesNext(r: nat, overrunAt: nat -> bool, first: nat, next: nat)
    requires r > 0 && first < next
    ensures PumpLosses(r, overrunAt, first, next) == PumpLosses(r, overrunAt, first, next - 1)
              + if overrunAt(next - 1) then [MadeAfter(r, next - 1)] else []
  {
  }

  /** No overrun flag goes up at the given words. */
  ghost predicate Quiet(overrunAt: nat -> bool, first: nat, next: nat) {
    forall t: nat :: first <= t < next ==> !overrunAt(t)
  }

  lemma {:induction false} QuietPump(r: nat, overrunAt: nat -> bool, first: nat, next: nat)
    requires r > 0 && Quiet(overrunAt, first, next)
    ensures PumpLosses(r, overrunAt, first, next) == []
    decreases next
  {
    if next > first {
      QuietPump(r, overrunAt, first, next - 1);
    }
  }

  function Last(s: seq<nat>): nat
    requires s != []
  {
    s[|s| - 1]
  }

  /** A log that was only appended to, with entries of at least `low`. */
  ghost predicate Grown(before: seq<nat>, now: seq<nat>, low: nat) {
    before <= now && forall i :: |before| <= i < |now| ==> low <= now[i]
  }

  lemma GrownTwice(a: seq<nat>, b: seq<nat>, c: seq<nat>, low: nat, later: nat)
    requires Grown(a, b, low) && Grown(b, c, later) && low <= later
    ensures Grown(a, c, low)
  {
  }

  /** What has happened by a moment: outputs made, words heard, losses logged. */
  datatype Snapshot = Snapshot(made: nat, heard: nat, losses: seq<nat>)

  /** Every overrun heard so far is in the log, at or after the outputs made by then. */
  ghost predicate Accounted(m: Snapshot, r: nat, overrunAt: nat -> bool)
    requires r > 0
  {
    && m.losses != [] && m.made == m.heard / r
    && (forall i :: 0 <= i < |m.losses| ==> m.losses[i] <= Last(m.losses) <= m.made)
    && forall t: nat :: t < m.heard && overrunAt(t) ==> MadeAfter(r, t) <= Last(m.losses)
  }

  /** Every loss logged is at least a whole ring of outputs old. */
  ghost predicate Clean(m: Snapshot) {
    forall i :: 0 <= i < |m.losses| ==> m.losses[i] + N <= m.made
  }

  /** The outputs still to come before the ring is clean. */
  function DirtyCount(m: Snapshot): nat
    requires m.losses != [] && Last(m.losses) <= m.made
  {
    if m.made - Last(m.losses) >= N then 0 else N - (m.made - Last(m.losses))
  }

  lemma CleanIsNotDirty(m: Snapshot, r: nat, overrunAt: nat -> bool)
    requires r > 0 && Accounted(m, r, overrunAt)
    ensures Last(m.losses) <= m.made && (Clean(m) <==> DirtyCount(m) == 0)
  {
    assert m.losses[|m.losses| - 1] <= Last(m.losses);
  }

  /** When the ring is clean no overrun was heard within the last N outputs. */
  lemma CleanMeansNoOverrun(m: Snapshot, r: nat, overrunAt: nat -> bool, t: nat)
    requires r > 0 && Accounted(m, r, overrunAt) && Clean(m) && t < m.heard && overrunAt(t)
    ensures MadeAfter(r, t) + N <= m.made
  {
    assert m.losses[|m.losses| - 1] + N <= m.made;
  }

  /** A launch: the state it is made in, whether the overrun flag is up then, and the state in
      which the ring is tested afterwards. */
  datatype Launch = Launch(at: Snapshot, flag: bool, test: Snapshot)
  {
    /** Outputs made, and losses noted, while the overrun message is printed. */
    function Printed(): int { test.made - at.made }
    predicate LossInPrint() { test.losses != at.losses }
  }

  /** With the flag up a message is printed before the test, and printing drains the receiver. */
  ghost predicate Tested(l: Launch, r: nat, overrunAt: nat -> bool)
    requires r > 0
  {
    && Accounted(l.at, r, overrunAt) && Accounted(l.test, r, overrunAt)
    && l.at.made <= l.test.made && l.at.heard <= l.test.heard
    && Grown(l.at.losses, l.test.losses, l.at.made)
    && (l.LossInPrint() <==> !Quiet(overrunAt, l.at.heard, l.test.heard))
    && (!l.flag ==> l.test == l.at)
  }

  /** The ring is as clean at the test as at the launch exactly if the flag was down, or else: when
      a loss was noted in the print, if a whole ring came behind it just in case the ring had been
      clean; when none was, if the dirty count did not run out in the print. */
  lemma TestAgreesIff(l: Launch, r: nat, overrunAt: nat -> bool)
    requires r > 0 && Tested(l, r, overrunAt)
    ensures (Clean(l.test) <==> Clean(l.at)) <==>
      (!l.flag
       || (if l.LossInPrint() then (l.test.made - Last(l.test.losses) >= N <==> DirtyCount(l.at) == 0)
           else DirtyCount(l.at) == 0 || DirtyCount(l.at) > l.Printed()))
  {
    CleanIsNotDirty(l.at, r, overrunAt);
    CleanIsNotDirty(l.test, r, overrunAt);
  }

  /** For a message shorter than a ring: a clean launch is passed over exactly if a loss was noted
      in the print, and an unclean one is analysed exactly if none was and its dirty count ran out. */
  lemma ShortMessage(l: Launch, r: nat, overrunAt: nat -> bool)
    requires r > 0 && Tested(l, r, overrunAt) && l.Printed() < N
    ensures Clean(l.at) ==> (Clean(l.test) <==> !l.LossInPrint())
    ensures !Clean(l.at) ==> (Clean(l.test) <==> !l.LossInPrint() && DirtyCount(l.at) <= l.Printed())
  {
    CleanIsNotDirty(l.at, r, overrunAt);
    CleanIsNotDirty(l.test, r, overrunAt);
    if l.LossInPrint() {
      assert |l.at.losses| < |l.test.losses|;
      assert l.test.losses[|l.test.losses| - 1] >= l.at.made;
    }
  }

  /** The flag is up at a launch exactly if a loss was logged since the launch before; at the first
      launch that is tested, since the start. */
  ghost predicate FlagsHold(launches: seq<Launch>, start: nat) {
    forall k :: 0 < k < |launches| ==>
      launches[k].flag == (|launches[k].at.losses| > FlagBase(launches, start, k))
  }

  /** How much of the log had been seen when the flag was last taken down before launch k. */
  function FlagBase(launches: seq<Launch>, start: nat, k: nat): nat
    requires k <= |launches|
  {
    if k <= 1 then start else |launches[k - 1].at.losses|
  }

  lemma FlagsNext(launches: seq<Launch>, l: Launch, start: nat)
    requires launches != [] && FlagsHold(launches, start)
    requires l.flag == (|l.at.losses| > FlagBase(launches, start, |launches|))
    ensures FlagsHold(launches + [l], start)
    ensures FlagBase(launches + [l], start, |launches| + 1) == |l.at.losses|
  {
    forall k | 0 < k < |launches| + 1
      ensures FlagBase(launches + [l], start, k) == FlagBase(launches, start, k)
    {
    }
  }

  /** What one pass of the loop analyses: the bins read after the given launch. */
  datatype Reading = Reading(launch: nat, bins: seq<C16>)

  /** The transform of the windowed ring as it stood after m outputs. */
  ghost function SpectrumOf(plan: Plan<C16>, x: Stream, r: nat, m: nat): (f: Frame)
    requires plan.Valid() && plan.N() == N && r > 0
    ensures |f| == N
  {
    Transform(plan, Windowed(WindowAt(x, r, m)))
  }

  lemma SpectrumBegins(plan: Plan<C16>, x: Stream, r: nat, m: nat)
    requires plan.Valid() && plan.N() == N && r > 0
    ensures Transform(plan, Windowed(WindowAt(x, r, m))) == SpectrumOf(plan, x, r, m)
  {
    hide Transform;
  }

  /** The frames the engine is given. */
  ghost function Frames(x: Stream, r: nat, launches: seq<Launch>): (fs: seq<Frame>)
    requires r > 0
    ensures |fs| == |launches|
  {
    seq(|launches|, (k: nat) requires k < |launches| => Windowed(WindowAt(x, r, launches[k].at.made)))
  }

  lemma FramesNext(x: Stream, r: nat, launches: seq<Launch>, l: Launch)
    requires r > 0
    ensures Frames(x, r, launches + [l]) == Frames(x, r, launches) + [Windowed(WindowAt(x, r, l.at.made))]
  {
    hide Windowed, WindowAt;
  }

  /** What the first n launches lead to: the launch that starts the stream shows no spectrum yet;
      every later one shows the spectrum of the frame before it, and it is analysed exactly when
      the ring is clean at the test. */
  ghost function Readings(plan: Plan<C16>, x: Stream, r: nat, launches: seq<Launch>, n: nat): (rs: seq<Reading>)
    requires plan.Valid() && plan.N() == N && r > 0 && n <= |launches|
  {
    if n <= 1 then []
    else
      var bins := SpectrumOf(plan, x, r, launches[n - 2].at.made)[KLO..KHI + 1];
      Readings(plan, x, r, launches, n - 1) + if Clean(launches[n - 1].test) then [Reading(n - 1, bins)] else []
  }

  lemma {:induction false} ReadingsOfPrefix(plan: Plan<C16>, x: Stream, r: nat, launches: seq<Launch>, l: Launch,
                                            n: nat)
    requires plan.Valid() && plan.N() == N && r > 0 && n <= |launches|
    ensures Readings(plan, x, r, launches + [l], n) == Readings(plan, x, r, launches, n)
  {
    hide SpectrumOf, Clean;
    if n > 1 {
      ReadingsOfPrefix(plan, x, r, launches, l, n - 1);
    }
  }

  /** How many of the first n waits succeeded. */
  function Successes(waits: seq<bool>, n: nat): (c: nat)
    requires n <= |waits|
    ensures c <= n
  {
    if n == 0 then 0 else Successes(waits, n - 1) + if waits[n - 1] then 1 else 0
  }

  lemma {:induction false} SuccessesOfPrefix(waits: seq<bool>, ok: bool, n: nat)
    requires n <= |waits|
    ensures Successes(waits + [ok], n) == Successes(waits, n)
  {
    if n > 0 {
      SuccessesOfPrefix(waits, ok, n - 1);
    }
  }

  lemma {:induction false} AllSucceed(waits: seq<bool>, n: nat)
    requires n <= |waits| && forall h :: 0 <= h < n ==> waits[h]
    ensures Successes(waits, n) == n
  {
    if n > 0 {
      AllSucceed(waits, n - 1);
    }
  }

  /** Each launch was tested as it should, and only later losses have been logged since. */
  ghost predicate Logged(launches: seq<Launch>, r: nat, overrunAt: nat -> bool, losses: seq<nat>, made: nat)
    requires r > 0
  {
    forall k :: 0 <= k < |launches| ==>
      && Tested(launches[k], r, overrunAt)
      && launches[k].test.made <= made && Grown(launches[k].test.losses, losses, launches[k].test.made)
  }

  lemma LoggedLater(launches: seq<Launch>, r: nat, overrunAt: nat -> bool, losses: seq<nat>, made: nat,
                    losses': seq<nat>, made': nat)
    requires r > 0 && Logged(launches, r, overrunAt, losses, made)
    requires made <= made' && Grown(losses, losses', made)
    ensures Logged(launches, r, overrunAt, losses', made')
  {
    hide Tested, Grown;
    forall k | 0 <= k < |launches|
      ensures Grown(launches[k].test.losses, losses', launches[k].test.made)
    {
      GrownTwice(launches[k].test.losses, losses, losses', launches[k].test.made, made);
    }
  }

  lemma NothingLaunched(x: Stream, r: nat, overrunAt: nat -> bool, losses: seq<nat>, made: nat)
    requires r > 0
    ensures Frames(x, r, []) == [] && Logged([], r, overrunAt, losses, made)
  {
  }

  lemma NoReadings(plan: Plan<C16>, x: Stream, r: nat, launches: seq<Launch>)
    requires plan.Valid() && plan.N() == N && r > 0 && |launches| == 1
    ensures Readings(plan, x, r, launches, 1) == []
  {
  }

  lemma ReadingsNext(plan: Plan<C16>, x: Stream, r: nat, launches: seq<Launch>, l: Launch)
    requires plan.Valid() && plan.N() == N && r > 0 && launches != []
    ensures var k := |launches|;
      Readings(plan, x, r, launches + [l], k + 1) == Readings(plan, x, r, launches, k)
        + if Clean(l.test) then [Reading(k, SpectrumOf(plan, x, r, launches[k - 1].at.made)[KLO..KHI + 1])] else []
  {
    hide SpectrumOf, Clean;
    ReadingsOfPrefix(plan, x, r, launches, l, |launches|);
  }

  lemma NoWaits(waits: seq<bool>)
    requires waits == []
    ensures Successes(waits, 0) == 0
  {
  }

  lemma WaitsNext(waits: seq<bool>, ok: bool)
    ensures Successes(waits + [ok], |waits| + 1) == Successes(waits, |waits|) + if ok then 1 else 0
    ensures forall h: nat :: h <= |waits| ==> Successes(waits + [ok], h) == Successes(waits, h)
  {
    forall h: nat | h <= |waits| ensures Successes(waits + [ok], h) == Successes(waits, h) {
      SuccessesOfPrefix(waits, ok, h);
    }
  }

  /** Without overruns only the mark at the start is in the log, and once a full ring has been
      made every launch is clean. */
  lemma {:induction false} QuietReadings(plan: Plan<C16>, x: Stream, r: nat, launches: seq<Launch>, start: seq<nat>,
                                         low: nat, n: nat)
    requires plan.Valid() && plan.N() == N && r > 0 && 0 < n <= |launches|
    requires forall k :: 0 <= k < |launches| ==>
      launches[k].test.losses <= start && launches[k].at.made <= launches[k].test.made
    requires forall i :: 0 <= i < |start| ==> start[i] <= low
    requires low + N <= launches[0].at.made
    requires forall k :: 0 < k < |launches| ==> launches[k - 1].at.made <= launches[k].at.made
    ensures low + N <= launches[n - 1].at.made
    ensures |Readings(plan, x, r, launches, n)| == n - 1
  {
    hide SpectrumOf;
    if n > 1 {
      QuietReadings(plan, x, r, launches, start, low, n - 1);
      var m := launches[n - 1].test;
      assert m.losses <= start;
      assert forall i :: 0 <= i < |m.losses| ==> m.losses[i] == start[i];
      assert Clean(m);
    }
  }

  lemma LoggedNext(launches: seq<Launch>, l: Launch, r: nat, overrunAt: nat -> bool)
    requires r > 0 && Logged(launches, r, overrunAt, l.test.losses, l.test.made) && Tested(l, r, overrunAt)
    ensures Logged(launches + [l], r, overrunAt, l.test.losses, l.test.made)
  {
    hide Tested;
  }

  /** The message can make an unclean launch pass: one overrun in the first ring, the launch two
      outputs before the ring is clean again, and sixteen words drained while printing. */
  lemma UncleanLaunchAnalysed(plan: Plan<C16>, x: Stream, overrunAt: nat -> bool, first: Launch, second: Launch)
    requires plan.Valid() && plan.N() == N
    requires forall t: nat :: overrunAt(t) <==> t == 2063
    requires first.at == first.test == Snapshot(1024, 8192, [0, 0, 258]) && !first.flag
    requires second == Launch(Snapshot(1280, 10240, [0, 0, 258]), true, Snapshot(1282, 10256, [0, 0, 258]))
    ensures Tested(first, 8, overrunAt) && Tested(second, 8, overrunAt) && FlagsHold([first, second], 2)
    ensures !Clean(second.at) && Clean(second.test)
    ensures |Readings(plan, x, 8, [first, second], 2)| == 1
  {
    assert second.at.losses[2] == 258;
    assert FlagBase([first, second], 2, 1) == 2;
  }

  /** And a clean one be passed over: an old overrun raises the flag, and another comes while the
      message is printed. */
  lemma CleanLaunchPassedOver(plan: Plan<C16>, x: Stream, overrunAt: nat -> bool, first: Launch, second: Launch)
    requires plan.Valid() && plan.N() == N
    requires forall t: nat :: overrunAt(t) <==> t == 799 || t == 10247
    requires first.at == first.test == Snapshot(1024, 8192, [0, 0, 100]) && !first.flag
    requires second == Launch(Snapshot(1280, 10240, [0, 0, 100]), true, Snapshot(1281, 10248, [0, 0, 100, 1281]))
    ensures Tested(first, 8, overrunAt) && Tested(second, 8, overrunAt) && FlagsHold([first, second], 2)
    ensures Clean(second.at) && !Clean(second.test)
    ensures Readings(plan, x, 8, [first, second], 2) == []
  {
    assert second.test.losses[3] == 1281;
    assert overrunAt(10247) && 10240 <= 10247 < 10248;
    assert MadeAfter(8, 799) == 100 && MadeAfter(8, 10247) == 1281;
    assert Accounted(second.at, 8, overrunAt) && Accounted(second.test, 8, overrunAt);
    assert FlagBase([first, second], 2, 1) == 2;
  }

  /** As long as the 32-bit count has not run out, a hop is at least HOP outputs. */
  predicate HopApart(a: nat, b: nat) {
    a <= b && (b < 0x1_0000_0000 - HOP ==> a + HOP <= b)
  }

  /** The i-th slot from pos on. */
  function SlotAt(pos: nat, i: nat): (s: nat)
    ensures s < N
  {
    (pos + i) % N
  }

  lemma SlotNext(pos: nat, i: nat)
    ensures (SlotAt(pos, i) + 1) % N == SlotAt(pos, i + 1)
  {
  }

  lemma SlotFirst(pos: nat)
    requires pos < N
    ensures SlotAt(pos, 0) == pos
  {
  }
}
