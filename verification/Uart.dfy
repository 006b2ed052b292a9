/** The 8N1 serial line of the harness: the paced frame driver (sim/sim_main.cpp), the gap-free
    frame sender and the mid-bit sampling monitor (sim/hw/uart_tb/uart_tb.cpp). */
module Uart {
  import opened PowersOfTwo

  const GAP_CYCLES := 10

  /** The line level in cell `bit` of a frame: start bit, data bits LSB first, stop bit. */
  function Level(byte: int, bit: nat): bool {
    if bit == 0 then false else if bit <= 8 then BitOf(byte, bit - 1) else true
  }

  // ------------------------------------------------------------ the monitor

  /** Armed until the line drops, then sampling in the middle of each bit, then waiting for
      the line to be high again. */
  datatype MonState = ARMED | SAMPLING | AWAIT_IDLE

  datatype Monitor = Monitor(state: MonState, cnt: int, bit: nat, byte: int, target: int, bytes: seq<int>)

  /** One clock of tx_monitor. */
  function MonitorStep(m: Monitor, bitCycles: nat, line: bool): Monitor {
    match m.state
    case ARMED =>
      if !line then Monitor(SAMPLING, 0, 0, 0, bitCycles + bitCycles / 2, m.bytes) else m
    case SAMPLING =>
      if m.cnt + 1 == m.target then
        var byte := if line then m.byte + Pow2(m.bit) else m.byte;
        Monitor(if m.bit + 1 == 8 then AWAIT_IDLE else SAMPLING, m.cnt + 1, m.bit + 1, byte, m.target + bitCycles,
                if m.bit + 1 == 8 then m.bytes + [byte] else m.bytes)
      else m.(cnt := m.cnt + 1)
    case AWAIT_IDLE => if line then m.(state := ARMED) else m
  }

  /** The monitor after the first n clocks of a line. */
  function Listen(m: Monitor, bitCycles: nat, line: seq<bool>, n: nat): Monitor
    requires n <= |line|
  {
    if n == 0 then m else MonitorStep(Listen(m, bitCycles, line, n - 1), bitCycles, line[n - 1])
  }

  /** The clock at which data bit i is sampled, counted from the falling edge: the middle of its cell,
      one and a half cells and i more behind the edge, rounded down. */
  function MidBit(bitCycles: nat, i: nat): (at: nat)
    ensures 2 * at <= (2 * i + 3) * bitCycles <= 2 * at + 1
  {
    assert (2 * i + 3) * bitCycles == 2 * ((i + 1) * bitCycles) + bitCycles;
    (i + 1) * bitCycles + bitCycles / 2
  }

  /** The first k data bits as they are on the line in the middle of their cells, lowest first. */
  function SampledByte(bitCycles: nat, line: seq<bool>, k: nat): int
    requires k > 0 ==> MidBit(bitCycles, k - 1) < |line|
  {
    if k == 0 then 0
    else
      MidBitsAscend(bitCycles, k);
      SampledByte(bitCycles, line, k - 1) + if line[MidBit(bitCycles, k - 1)] then Pow2(k - 1) else 0
  }

  lemma MidBitsAscend(bitCycles: nat, k: nat)
    requires k > 0
    ensures MidBit(bitCycles, k) == MidBit(bitCycles, k - 1) + bitCycles
    ensures k > 1 ==> MidBit(bitCycles, k - 2) <= MidBit(bitCycles, k - 1)
  {
    assert (k + 1) * bitCycles == k * bitCycles + bitCycles;
    assert k * bitCycles == (k - 1) * bitCycles + bitCycles;
  }

  /** Between samples only the clock count moves. */
  lemma {:induction false} CountsOn(m: Monitor, bitCycles: nat, line: seq<bool>, from: nat, n: nat)
    requires from + n <= |line| && Listen(m, bitCycles, line, from).state.SAMPLING?
    requires var now := Listen(m, bitCycles, line, from); now.cnt + n < now.target
    ensures var now := Listen(m, bitCycles, line, from);
      Listen(m, bitCycles, line, from + n) == now.(cnt := now.cnt + n)
  {
    if n > 0 {
      CountsOn(m, bitCycles, line, from, n - 1);
      assert from + n - 1 == from + (n - 1);
    }
  }

  /** Whatever the line does after its falling edge, the monitor's byte is what the line was in the
      middle of each of the eight data cells. */
  lemma {:induction false} SamplesMidBit(m: Monitor, bitCycles: nat, line: seq<bool>, k: nat)
    requires m.state.ARMED? && bitCycles >= 1 && line != [] && !line[0] && 0 < k <= 8
    requires MidBit(bitCycles, k - 1) < |line|
    ensures var byte, at := SampledByte(bitCycles, line, k), MidBit(bitCycles, k - 1);
      Listen(m, bitCycles, line, at + 1)
      == Monitor(if k == 8 then AWAIT_IDLE else SAMPLING, at, k, byte, at + bitCycles,
                 if k == 8 then m.bytes + [byte] else m.bytes)
  {
    hide Pow2, MidBit, MonitorStep, Listen;
    if k == 1 {
      FirstMidBit(bitCycles);
      FirstClock(m, bitCycles, line);
      OneSample(m, bitCycles, line, 1, MidBit(bitCycles, 0), 0, 0);
    } else {
      MidBitsAscend(bitCycles, k - 1);
      SamplesMidBit(m, bitCycles, line, k - 1);
      var before := SampledByte(bitCycles, line, k - 1);
      OneSample(m, bitCycles, line, MidBit(bitCycles, k - 2) + 1, MidBit(bitCycles, k - 1), k - 1, before);
    }
  }

  lemma OneSample(m: Monitor, bitCycles: nat, line: seq<bool>, from: nat, at: nat, k: nat, before: int)
    requires k < 8 && 0 < from <= at < |line|
    requires Listen(m, bitCycles, line, from) == Monitor(SAMPLING, from - 1, k, before, at, m.bytes)
    ensures var byte := before + if line[at] then Pow2(k) else 0;
      Listen(m, bitCycles, line, at + 1)
      == Monitor(if k == 7 then AWAIT_IDLE else SAMPLING, at, k + 1, byte, at + bitCycles,
                 if k == 7 then m.bytes + [byte] else m.bytes)
  {
    hide Pow2;
    CountsOn(m, bitCycles, line, from, at - from);
  }

  lemma FirstMidBit(bitCycles: nat)
    ensures MidBit(bitCycles, 0) == bitCycles + bitCycles / 2
  {
  }

  lemma FirstClock(m: Monitor, bitCycles: nat, line: seq<bool>)
    requires m.state.ARMED? && line != [] && !line[0]
    ensures Listen(m, bitCycles, line, 1) == Monitor(SAMPLING, 0, 0, 0, bitCycles + bitCycles / 2, m.bytes)
  {
    assert Listen(m, bitCycles, line, 0) == m;
  }

  // ------------------------------------------------------------ the driver

  datatype Config = Config(bytes: seq<int>, bitCycles: nat, paced: bool)
  {
    ghost predicate Valid() {
      bitCycles >= 1 && forall i :: 0 <= i < |bytes| ==> IsByte(bytes[i])
    }
  }

  datatype Driver = Driver(idx: nat, active: bool, cur: int, bit: nat, cnt: nat, gap: nat)

  /** The driver waits: between frames, at the end, or held back by a full FIFO. */
  predicate Idles(c: Config, d: Driver, blocked: bool) {
    !d.active && (d.gap > 0 || d.idx >= |c.bytes| || (c.paced && blocked))
  }

  /** The frame being sent in this cycle. */
  function Loaded(c: Config, d: Driver, blocked: bool): Driver
    requires !Idles(c, d, blocked)
  {
    if d.active then d else Driver(d.idx + 1, true, c.bytes[d.idx], 0, 0, d.gap)
  }

  /** The line level of this cycle. */
  function DriverLevel(c: Config, d: Driver, blocked: bool): bool {
    if Idles(c, d, blocked) then true
    else
      var l := Loaded(c, d, blocked);
      Level(l.cur, l.bit)
  }

  /** The driver after this cycle. */
  function DriverStep(c: Config, d: Driver, blocked: bool): Driver {
    if Idles(c, d, blocked) then
      if d.gap > 0 then d.(gap := d.gap - 1) else d
    else
      var l := Loaded(c, d, blocked);
      if l.cnt + 1 != c.bitCycles then l.(cnt := l.cnt + 1)
      else if l.bit + 1 > 9 then l.(cnt := 0, bit := l.bit + 1, active := false, gap := GAP_CYCLES)
      else l.(cnt := 0, bit := l.bit + 1)
  }

  predicate Done(c: Config, d: Driver) { d.idx >= |c.bytes| && !d.active }

  // ------------------------------------------------------------ one frame

  /** Data bits sampled when the next clock is number cnt of cell bit. */
  function SamplesTaken(bitCycles: nat, bit: nat, cnt: nat): int {
    if bit == 0 then 0 else if bit >= 9 then 8 else bit - 1 + (if cnt > bitCycles / 2 then 1 else 0)
  }

  /** The monitor while a frame with `byte` is on the line, the next clock being number cnt of
      cell bit; `before` are the bytes decoded earlier. */
  ghost predicate InFrame(m: Monitor, bitCycles: nat, byte: int, bit: nat, cnt: nat, before: seq<int>) {
    if bit == 0 && cnt == 0 then m.state.ARMED? && m.bytes == before
    else
      var k := SamplesTaken(bitCycles, bit, cnt);
      if k < 8 then
        && m.state.SAMPLING? && m.bit == k && m.byte == byte % Pow2(k) && m.bytes == before
        && m.target - m.cnt == (if bit == k + 1 then 0 else bitCycles) + bitCycles / 2 - cnt + 1
      else
        && m.bytes == before + [byte] && !m.state.SAMPLING?
        && (m.state.ARMED? ==> bit >= 9 || BitOf(byte, 7))
        && (bit > 9 || (bit == 9 && cnt > 0) ==> m.state.ARMED?)
  }

  /** The position after one more clock; cell 10 is the end of the frame. */
  function NextPos(bitCycles: nat, bit: nat, cnt: nat): (nat, nat) {
    if cnt + 1 == bitCycles then (bit + 1, 0) else (bit, cnt + 1)
  }

  lemma LowPart(b: int, k: nat)
    requires IsByte(b)
    ensures b % Pow2(k + 1) == b % Pow2(k) + (if BitOf(b, k) then Pow2(k) else 0)
  {
    var d := Pow2(k);
    var q, r := b / d, b % d;
    var half, bit := q / 2, q % 2;
    assert b == q * d + r;
    assert q * d == (2 * half) * d + bit * d by {
      assert q == 2 * half + bit;
    }
    assert (2 * half) * d == half * (2 * d);
    assert bit * d == if bit == 1 then d else 0;
    DivModUnique(b, 2 * d, half, (if bit == 1 then d else 0) + r);
  }

  lemma WholeByte(b: int)
    requires IsByte(b)
    ensures b % Pow2(8) == b
  {
    assert Pow2(4) == 16;
    assert Pow2(8) == 256;
  }

  /** Each clock of a frame moves the monitor along with it. */
  lemma FrameClock(m: Monitor, bitCycles: nat, byte: int, bit: nat, cnt: nat, before: seq<int>)
    requires IsByte(byte) && bitCycles >= 1 && bit <= 9 && cnt < bitCycles
    requires InFrame(m, bitCycles, byte, bit, cnt, before)
    ensures var next := NextPos(bitCycles, bit, cnt);
      InFrame(MonitorStep(m, bitCycles, Level(byte, bit)), bitCycles, byte, next.0, next.1, before)
  {
    var k := SamplesTaken(bitCycles, bit, cnt);
    LowPart(byte, if k >= 0 then k else 0);
    WholeByte(byte);
    hide BitOf, Pow2;
  }

  // ------------------------------------------------------------ driver and monitor together

  /** The monitor has decoded exactly the frames the driver has shipped, and is in step with
      the one on the line. */
  ghost predicate InSync(c: Config, d: Driver, m: Monitor) {
    && d.idx <= |c.bytes|
    && if d.active then
         && d.idx > 0 && d.cur == c.bytes[d.idx - 1]
         && d.bit <= 9 && d.cnt < c.bitCycles && (d.bit, d.cnt) != (0, 0)
         && InFrame(m, c.bitCycles, d.cur, d.bit, d.cnt, c.bytes[..d.idx - 1])
       else m.state.ARMED? && m.bytes == c.bytes[..d.idx]
  }

  lemma StepInSync(c: Config, d: Driver, m: Monitor, blocked: bool)
    requires c.Valid() && InSync(c, d, m)
    ensures InSync(c, DriverStep(c, d, blocked), MonitorStep(m, c.bitCycles, DriverLevel(c, d, blocked)))
  {
    if !Idles(c, d, blocked) {
      var l := Loaded(c, d, blocked);
      FrameClock(m, c.bitCycles, l.cur, l.bit, l.cnt, c.bytes[..l.idx - 1]);
      hide BitOf, Pow2;
      assert c.bytes[..l.idx - 1] + [l.cur] == c.bytes[..l.idx];
    }
  }

  /** Driver and monitor clocked through a back-pressure schedule. */
  function Run(c: Config, d: Driver, m: Monitor, schedule: seq<bool>): (Driver, Monitor)
    decreases |schedule|
  {
    if schedule == [] then (d, m)
    else
      Run(c, DriverStep(c, d, schedule[0]), MonitorStep(m, c.bitCycles, DriverLevel(c, d, schedule[0])), schedule[1..])
  }

  function FreshDriver(): Driver { Driver(0, false, 0, 0, 0, 0) }

  function FreshMonitor(): Monitor { Monitor(ARMED, 0, 0, 0, 0, []) }

  lemma {:induction false} RunInSync(c: Config, d: Driver, m: Monitor, schedule: seq<bool>)
    requires c.Valid() && InSync(c, d, m)
    ensures var r := Run(c, d, m, schedule); InSync(c, r.0, r.1)
    decreases |schedule|
  {
    if schedule != [] {
      StepInSync(c, d, m, schedule[0]);
      hide DriverStep, MonitorStep, DriverLevel, InSync;
      RunInSync(c, DriverStep(c, d, schedule[0]), MonitorStep(m, c.bitCycles, DriverLevel(c, d, schedule[0])),
                schedule[1..]);
    }
  }

  /** The main theorem: under every back-pressure schedule the monitor has decoded a prefix of
      the bytes, in order, and all of them once the driver is done. */
  lemma MonitorRecoversBytes(c: Config, schedule: seq<bool>)
    requires c.Valid()
    ensures var r := Run(c, FreshDriver(), FreshMonitor(), schedule);
      && r.1.bytes <= c.bytes
      && (if r.0.active then r.0.idx - 1 else r.0.idx) <= |r.1.bytes| <= r.0.idx
      && (Done(c, r.0) ==> r.1.bytes == c.bytes)
  {
    RunInSync(c, FreshDriver(), FreshMonitor(), schedule);
    hide Run, BitOf, Pow2;
  }

  // ------------------------------------------------------------ progress

  function FrameCycles(c: Config): int { 10 * c.bitCycles + GAP_CYCLES }

  /** Clocks still needed when nothing holds the driver back. */
  function Remaining(c: Config, d: Driver): int {
    (|c.bytes| - d.idx) * FrameCycles(c)
    + (if d.active then (10 - d.bit) * c.bitCycles - d.cnt + GAP_CYCLES else d.gap)
  }

  /** Every clock that is not a stall (idle, no gap left, and blocked or at the end) brings the
      driver one clock closer to the end. */
  lemma EveryClockCounts(c: Config, d: Driver, blocked: bool)
    requires c.Valid() && d.idx <= |c.bytes|
    requires d.active ==> d.bit <= 9 && d.cnt < c.bitCycles
    ensures var stalled := Idles(c, d, blocked) && d.gap == 0;
      Remaining(c, DriverStep(c, d, blocked)) == Remaining(c, d) - (if stalled then 0 else 1)
  {
    var n := DriverStep(c, d, blocked);
    if !Idles(c, d, blocked) {
      var l := Loaded(c, d, blocked);
      assert (10 - l.bit) * c.bitCycles == (10 - (l.bit + 1)) * c.bitCycles + c.bitCycles;
      assert (|c.bytes| - d.idx) * FrameCycles(c)
          == (|c.bytes| - l.idx) * FrameCycles(c) + (if d.active then 0 else FrameCycles(c));
    }
  }

  /** Nothing remaining means done. */
  lemma NothingRemaining(c: Config, d: Driver)
    requires c.Valid() && d.idx <= |c.bytes| && (d.active ==> d.bit <= 9 && d.cnt < c.bitCycles)
    ensures Remaining(c, d) >= 0
    ensures Remaining(c, d) == 0 ==> Done(c, d)
  {
    MulLe(0, |c.bytes| - d.idx, FrameCycles(c));
    if d.idx < |c.bytes| {
      MulLe(1, |c.bytes| - d.idx, FrameCycles(c));
    }
    if d.active {
      MulLe(1, 10 - d.bit, c.bitCycles);
    }
  }

  function Unblocked(schedule: seq<bool>): nat
    decreases |schedule|
  {
    if schedule == [] then 0 else (if schedule[0] then 0 else 1) + Unblocked(schedule[1..])
  }

  lemma {:induction false} RunFinishes(c: Config, d: Driver, m: Monitor, schedule: seq<bool>)
    requires c.Valid() && InSync(c, d, m)
    ensures var r := Run(c, d, m, schedule); Done(c, r.0) || Remaining(c, r.0) <= Remaining(c, d) - Unblocked(schedule)
    decreases |schedule|
  {
    if schedule != [] {
      var n := DriverStep(c, d, schedule[0]);
      StepInSync(c, d, m, schedule[0]);
      EveryClockCounts(c, d, schedule[0]);
      DoneStays(c, d, schedule[0]);
      hide DriverLevel, MonitorStep, InSync, Remaining, DriverStep;
      RunFinishes(c, n, MonitorStep(m, c.bitCycles, DriverLevel(c, d, schedule[0])), schedule[1..]);
      if Done(c, d) {
        DoneForGood(c, n, MonitorStep(m, c.bitCycles, DriverLevel(c, d, schedule[0])), schedule[1..]);
      }
    }
  }

  lemma DoneStays(c: Config, d: Driver, blocked: bool)
    ensures Done(c, d) ==> Done(c, DriverStep(c, d, blocked))
    ensures Idles(c, d, blocked) && d.gap == 0 && !blocked ==> Done(c, d)
  {
  }

  lemma {:induction false} DoneForGood(c: Config, d: Driver, m: Monitor, schedule: seq<bool>)
    requires Done(c, d)
    ensures Done(c, Run(c, d, m, schedule).0)
    decreases |schedule|
  {
    if schedule != [] {
      DoneStays(c, d, schedule[0]);
      DoneForGood(c, DriverStep(c, d, schedule[0]),
                  MonitorStep(m, c.bitCycles, DriverLevel(c, d, schedule[0])), schedule[1..]);
    }
  }

  /** Enough clocks without back-pressure deliver every byte, however they are spread. */
  lemma AllBytesArrive(c: Config, schedule: seq<bool>)
    requires c.Valid() && Unblocked(schedule) >= |c.bytes| * FrameCycles(c)
    ensures Run(c, FreshDriver(), FreshMonitor(), schedule).1.bytes == c.bytes
  {
    var r := Run(c, FreshDriver(), FreshMonitor(), schedule);
    RunInSync(c, FreshDriver(), FreshMonitor(), schedule);
    RunFinishes(c, FreshDriver(), FreshMonitor(), schedule);
    MonitorRecoversBytes(c, schedule);
    hide Run, BitOf, Pow2;
    assert Remaining(c, FreshDriver()) == |c.bytes| * FrameCycles(c);
    NothingRemaining(c, r.0);
  }

  // ------------------------------------------------------------ what the driver puts on the line

  /** The driver after the first n clocks of a schedule. */
  function AfterClocks(c: Config, d: Driver, schedule: seq<bool>, n: nat): Driver
    requires n <= |schedule|
  {
    if n == 0 then d else DriverStep(c, AfterClocks(c, d, schedule, n - 1), schedule[n - 1])
  }

  /** The line level at clock n. */
  function LineAt(c: Config, d: Driver, schedule: seq<bool>, n: nat): bool
    requires n < |schedule|
  {
    DriverLevel(c, AfterClocks(c, d, schedule, n), schedule[n])
  }

  lemma {:induction false} ClocksOfTail(c: Config, d: Driver, schedule: seq<bool>, n: nat)
    requires n < |schedule|
    ensures AfterClocks(c, DriverStep(c, d, schedule[0]), schedule[1..], n) == AfterClocks(c, d, schedule, n + 1)
  {
    hide DriverStep;
    if n > 0 {
      ClocksOfTail(c, d, schedule, n - 1);
    }
  }

  lemma {:induction false} RunIsClocks(c: Config, d: Driver, m: Monitor, schedule: seq<bool>)
    ensures Run(c, d, m, schedule).0 == AfterClocks(c, d, schedule, |schedule|)
    decreases |schedule|
  {
    hide DriverStep, MonitorStep, DriverLevel;
    if schedule != [] {
      var d', m' := DriverStep(c, d, schedule[0]), MonitorStep(m, c.bitCycles, DriverLevel(c, d, schedule[0]));
      RunIsClocks(c, d', m', schedule[1..]);
      ClocksOfTail(c, d, schedule, |schedule| - 1);
    }
  }

  /** Between frames, with the gap behind it. */
  predicate Resting(d: Driver) { !d.active && d.gap == 0 }

  /** A resting driver keeps the line high and ships nothing exactly if it has no byte left or is
      paced and blocked. */
  lemma WaitsIff(c: Config, d: Driver, blocked: bool)
    requires c.Valid() && Resting(d)
    ensures DriverStep(c, d, blocked).idx == d.idx <==> d.idx >= |c.bytes| || (c.paced && blocked)
    ensures DriverLevel(c, d, blocked) <==> d.idx >= |c.bytes| || (c.paced && blocked)
    ensures DriverLevel(c, d, blocked) ==> DriverStep(c, d, blocked) == d
  {
  }

  /** Clock t of a frame of this byte: a low start bit, the eight bits of the byte from the lowest on,
      a high stop bit, each bitCycles clocks long. */
  predicate Waveform(byte: int, bitCycles: nat, t: nat)
    requires bitCycles > 0
  {
    if t < bitCycles then false
    else if t < 9 * bitCycles then byte / Pow2(t / bitCycles - 1) % 2 == 1
    else true
  }

  /** Where a driver is that started a frame from rest t clocks ago. */
  predicate InShipment(c: Config, d: Driver, now: Driver, t: nat)
    requires c.bitCycles > 0
  {
    if t == 0 then now == d
    else if t < 10 * c.bitCycles then
      d.idx < |c.bytes|
      && now == Driver(d.idx + 1, true, c.bytes[d.idx], t / c.bitCycles, t % c.bitCycles, 0)
    else
      && now.idx == d.idx + 1 && !now.active && now.gap == 10 - (t - 10 * c.bitCycles)
  }

  /** A shipment begins when a resting driver is not held back. */
  ghost predicate Ships(c: Config, d: Driver, schedule: seq<bool>) {
    c.Valid() && Resting(d) && schedule != [] && d.idx < |c.bytes| && !(c.paced && schedule[0])
  }

  lemma CellNext(t: nat, n: nat)
    requires n > 0
    ensures (t + 1) / n == (if t % n + 1 == n then t / n + 1 else t / n)
    ensures (t + 1) % n == (if t % n + 1 == n then 0 else t % n + 1)
  {
    if t % n + 1 == n {
      assert t + 1 == (t / n + 1) * n;
      DivModUnique(t + 1, n, t / n + 1, 0);
    } else {
      DivModUnique(t + 1, n, t / n, t % n + 1);
    }
  }

  lemma CellBounds(t: nat, n: nat, k: nat)
    requires n > 0
    ensures t < k * n <==> t / n < k
  {
    assert t == t / n * n + t % n;
    if t / n < k {
      MulLe(t / n + 1, k, n);
      assert (t / n + 1) * n == t / n * n + n;
    } else {
      MulLe(k, t / n, n);
    }
  }

  lemma ShipmentClock(c: Config, d: Driver, now: Driver, t: nat, blocked: bool)
    requires c.Valid() && Resting(d) && d.idx < |c.bytes| && InShipment(c, d, now, t)
    requires t == 0 ==> !(c.paced && blocked)
    requires t < 10 * c.bitCycles + 10
    ensures InShipment(c, d, DriverStep(c, now, blocked), t + 1)
    ensures DriverLevel(c, now, blocked) == Waveform(c.bytes[d.idx], c.bitCycles, t)
  {
    var n := c.bitCycles;
    CellNext(t, n);
    CellBounds(t, n, 1);
    CellBounds(t, n, 9);
    CellBounds(t, n, 10);
    CellBounds(t + 1, n, 10);
    hide Pow2;
  }

  /** A whole shipment, under any back-pressure once it has begun: the frame's waveform, then ten high
      clocks, and then the driver rests again with the next byte ahead of it. */
  lemma {:induction false} FrameOnTheLine(c: Config, d: Driver, schedule: seq<bool>, n: nat)
    requires Ships(c, d, schedule) && n <= |schedule| && n <= 10 * c.bitCycles + 10
    ensures InShipment(c, d, AfterClocks(c, d, schedule, n), n)
    ensures forall t: nat :: t < n ==> LineAt(c, d, schedule, t) == Waveform(c.bytes[d.idx], c.bitCycles, t)
    ensures n == 10 * c.bitCycles + 10 ==>
      Resting(AfterClocks(c, d, schedule, n)) && AfterClocks(c, d, schedule, n).idx == d.idx + 1
  {
    if n > 0 {
      FrameOnTheLine(c, d, schedule, n - 1);
      ShipmentClock(c, d, AfterClocks(c, d, schedule, n - 1), n - 1, schedule[n - 1]);
    }
  }

  /** Every run is made of rests and shipments: at any clock the driver rests, or is in a shipment that
      began at an earlier one, from rest and not held back. */
  lemma {:induction false} RunIsShipments(c: Config, schedule: seq<bool>, n: nat) returns (start: nat)
    requires c.Valid() && n <= |schedule|
    ensures start <= n && Resting(AfterClocks(c, FreshDriver(), schedule, start))
    ensures var d := AfterClocks(c, FreshDriver(), schedule, start);
      start < n ==>
        && d.idx < |c.bytes| && !(c.paced && schedule[start]) && n - start < 10 * c.bitCycles + 10
        && InShipment(c, d, AfterClocks(c, FreshDriver(), schedule, n), n - start)
  {
    hide InShipment, Waveform;
    start := 0;
    if n > 0 {
      start := RunIsShipments(c, schedule, n - 1);
      var d, now := AfterClocks(c, FreshDriver(), schedule, start), AfterClocks(c, FreshDriver(), schedule, n - 1);
      if start == n - 1 {
        ShipmentStarts(c, d);
        WaitsIff(c, d, schedule[n - 1]);
      }
      if start < n - 1 || (d.idx < |c.bytes| && !(c.paced && schedule[start])) {
        ShipmentClock(c, d, now, n - 1 - start, schedule[n - 1]);
        if n - start == 10 * c.bitCycles + 10 {
          ShipmentEnds(c, d, AfterClocks(c, FreshDriver(), schedule, n));
          start := n;
        }
      } else {
        start := n;
      }
    }
  }

  lemma ShipmentStarts(c: Config, d: Driver)
    requires c.Valid()
    ensures InShipment(c, d, d, 0)
  {
  }

  lemma ShipmentEnds(c: Config, d: Driver, now: Driver)
    requires c.Valid() && InShipment(c, d, now, 10 * c.bitCycles + 10)
    ensures Resting(now)
  {
  }

  /** In every run a paced driver takes a byte only at a clock that is not blocked. */
  lemma PacedTakesUnblocked(c: Config, d: Driver, schedule: seq<bool>, n: nat)
    requires c.paced && n < |schedule|
    requires AfterClocks(c, d, schedule, n + 1).idx != AfterClocks(c, d, schedule, n).idx
    ensures !schedule[n]
  {
  }

  /** Blocked throughout, a paced driver ships nothing and holds the line high. */
  lemma {:induction false} BlockedShipsNothing(c: Config, schedule: seq<bool>, n: nat)
    requires c.Valid() && c.paced && n <= |schedule| && forall t :: 0 <= t < |schedule| ==> schedule[t]
    ensures AfterClocks(c, FreshDriver(), schedule, n) == FreshDriver()
    ensures forall t: nat :: t < n ==> LineAt(c, FreshDriver(), schedule, t)
  {
    if n > 0 {
      BlockedShipsNothing(c, schedule, n - 1);
      WaitsIff(c, FreshDriver(), schedule[n - 1]);
    }
  }

  /** An unpaced driver does not look at the back-pressure. */
  lemma {:induction false} UnpacedIgnoresSchedule(c: Config, d: Driver, m: Monitor, one: seq<bool>, other: seq<bool>)
    requires !c.paced && |one| == |other|
    ensures Run(c, d, m, one) == Run(c, d, m, other)
    decreases |one|
  {
    if one != [] {
      SameStep(c, d, one[0], other[0]);
      hide DriverStep, DriverLevel, MonitorStep;
      var line := DriverLevel(c, d, one[0]);
      UnpacedIgnoresSchedule(c, DriverStep(c, d, one[0]), MonitorStep(m, c.bitCycles, line), one[1..], other[1..]);
    }
  }

  lemma SameStep(c: Config, d: Driver, one: bool, other: bool)
    requires !c.paced
    ensures DriverStep(c, d, one) == DriverStep(c, d, other) && DriverLevel(c, d, one) == DriverLevel(c, d, other)
  {
  }

  // ------------------------------------------------------------ the programs

  class UartRxDriver {
    const config: Config
    var idx: nat
    var active: bool
    var cur: int
    var bit: nat
    var cnt: nat
    var gap: nat

    ghost function Value(): Driver
      reads this
    {
      Driver(idx, active, cur, bit, cnt, gap)
    }

    constructor (config: Config)
      ensures this.config == config && Value() == FreshDriver()
    {
      this.config := config;
      idx, active, cur, bit, cnt, gap := 0, false, 0, 0, 0, 0;
    }

    /** The level to drive for the cycle about to be clocked. */
    method Step(blocked: bool) returns (level: bool)
      modifies this
      ensures Value() == DriverStep(config, old(Value()), blocked)
      ensures level == DriverLevel(config, old(Value()), blocked)
    {
      if !active {
        if gap > 0 {
          gap := gap - 1;
          return true;
        }
        if idx >= |config.bytes| || (config.paced && blocked) {
          return true;
        }
        cur, idx := config.bytes[idx], idx + 1;
        active, bit, cnt := true, 0, 0;
      }
      level := if bit == 0 then false else if bit <= 8 then BitOf(cur, bit - 1) else true;
      cnt := cnt + 1;
      if cnt == config.bitCycles {
        cnt, bit := 0, bit + 1;
        if bit > 9 {
          active, gap := false, GAP_CYCLES;
        }
      }
    }
  }

  class TxMonitor {
    const bitCycles: nat
    var state: MonState
    var cnt: int
    var bit: nat
    var byte: int
    var target: int
    var bytes: seq<int>

    ghost function Value(): Monitor
      reads this
    {
      Monitor(state, cnt, bit, byte, target, bytes)
    }

    constructor (bitCycles: nat)
      ensures this.bitCycles == bitCycles && Value() == FreshMonitor()
    {
      this.bitCycles := bitCycles;
      state, cnt, bit, byte, target, bytes := ARMED, 0, 0, 0, 0, [];
    }

    /** Called on every clock with the level of the line. */
    method Tick(line: bool)
      modifies this
      ensures Value() == MonitorStep(old(Value()), bitCycles, line)
    {
      if state == ARMED {
        if !line {
          state, cnt, bit, byte := SAMPLING, 0, 0, 0;
          target := bitCycles + bitCycles / 2;
        }
      } else if state == SAMPLING {
        cnt := cnt + 1;
        if cnt == target {
          if line {
            byte := byte + Pow2(bit);
          }
          bit := bit + 1;
          target := target + bitCycles;
          if bit == 8 {
            bytes := bytes + [byte];
            state := AWAIT_IDLE;
          }
        }
      } else {
        if line {
          state := ARMED;
        }
      }
    }

    /** Hold the line at one level for a whole cell of the frame of `frame`. */
    method Drive(level: bool, ghost frame: int, ghost cell: nat, ghost before: seq<int>)
      requires bitCycles >= 1 && IsByte(frame) && cell <= 9 && level == Level(frame, cell)
      requires InFrame(Value(), bitCycles, frame, cell, 0, before)
      modifies this
      ensures InFrame(Value(), bitCycles, frame, cell + 1, 0, before)
    {
      hide InFrame, MonitorStep, Level;
      for i := 0 to bitCycles
        invariant i < bitCycles ==> InFrame(Value(), bitCycles, frame, cell, i, before)
        invariant i == bitCycles ==> InFrame(Value(), bitCycles, frame, cell + 1, 0, before)
      {
        FrameClock(Value(), bitCycles, frame, cell, i, before);
        Tick(level);
      }
    }

    /** One 8N1 frame with no gap around it: the monitor decodes exactly that byte and is armed
        for the next frame. */
    method RxFrame(frame: int)
      requires bitCycles >= 1 && IsByte(frame) && state == ARMED
      modifies this
      ensures state == ARMED && bytes == old(bytes) + [frame]
    {
      ghost var before := bytes;
      Drive(false, frame, 0, before);
      for b := 0 to 8
        invariant InFrame(Value(), bitCycles, frame, b + 1, 0, before)
      {
        Drive(BitOf(frame, b), frame, b + 1, before);
      }
      Drive(true, frame, 9, before);
    }

    /** Back-to-back frames: the burst a line-buffered terminal sends. */
    method RxBurst(frames: seq<int>)
      requires bitCycles >= 1 && state == ARMED && forall i :: 0 <= i < |frames| ==> IsByte(frames[i])
      modifies this
      ensures state == ARMED && bytes == old(bytes) + frames
    {
      for i := 0 to |frames|
        invariant state == ARMED && bytes == old(bytes) + frames[..i]
      {
        RxFrame(frames[i]);
        assert frames[..i] + [frames[i]] == frames[..i + 1];
      }
      assert frames[..|frames|] == frames;
    }
  }
}
