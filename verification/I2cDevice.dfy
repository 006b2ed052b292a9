/** On every well-formed bus waveform the slave behaves as a 16-register device: writes land
    at consecutive registers from the pointer on, reads return consecutive registers most
    significant bit first, and other addresses change nothing. Timing is arbitrary. */
module I2cDevice {
  import opened PowersOfTwo
  import opened I2cSlave

  // ------------------------------------------------------------ the bus

  /** One clock of the bus: the line is low when either side pulls it. */
  function BusStep(s: Slave, scl: bool, sda: bool): (r: Slave)
    requires s.Valid()
    ensures r.Valid()
  {
    CppStepValid(s, scl, sda && s.drive);
    CppStep(s, scl, sda && s.drive)
  }

  function Bus(s: Slave, w: seq<Lines>): (r: Slave)
    requires s.Valid()
    ensures r.Valid()
    decreases |w|
  {
    if w == [] then s else Bus(BusStep(s, w[0].scl, w[0].sda), w[1..])
  }

  lemma {:induction false} BusConcat(s: Slave, v: seq<Lines>, w: seq<Lines>)
    requires s.Valid()
    ensures Bus(s, v + w) == Bus(Bus(s, v), w)
    decreases |v|
  {
    if v == [] {
      assert v + w == w;
    } else {
      BusConcat(BusStep(s, v[0].scl, v[0].sda), v[1..], w);
      assert (v + w)[0] == v[0] && (v + w)[1..] == v[1..] + w;
    }
  }

  /** What a master does: clock out one bit (SCL falls, SDA may glitch while SCL is low, then
      settles, then SCL rises), or move SDA while SCL is high. */
  datatype Symbol =
    | Clock(b: bool, noise: seq<bool>, setup: nat, high: nat)
    | Drop(hold: nat)
    | Raise(hold: nat)
  {
    predicate Timed() {
      if Clock? then noise != [] && setup > 0 && high > 0 else hold > 0
    }

    function Wave(): seq<Lines> {
      match this
      case Clock(b, noise, setup, high) =>
        seq(|noise|, (i: nat) requires i < |noise| => Lines(false, noise[i]))
        + seq(setup, (i: nat) => Lines(false, b)) + seq(high, (i: nat) => Lines(true, b))
      case Drop(hold) => seq(hold, (i: nat) => Lines(true, false))
      case Raise(hold) => seq(hold, (i: nat) => Lines(true, true))
    }
  }

  // ------------------------------------------------------------ what one symbol does

  /** The slave after SCL has fallen. */
  function Fallen(s: Slave): (r: Slave)
    requires s.Valid()
    ensures r.Valid() && r.prev == s.prev
  {
    if s.st.IDLE? then s
    else
      EdgesValid(s, true);
      CppFall(s)
  }

  /** The slave after one clocked bit; prev.sda is the level the master samples. */
  function Clocked(s: Slave, b: bool): (r: Slave)
    requires s.Valid()
    ensures r.Valid()
  {
    var f := Fallen(s);
    var line := b && f.drive;
    if f.st.IDLE? then f.(prev := Lines(true, line))
    else
      EdgesValid(f, line);
      Rise(f, line).(prev := Lines(true, line))
  }

  /** While SCL stays low the slave only remembers the line. */
  lemma {:induction false} LowRun(s: Slave, w: seq<Lines>)
    requires s.Valid() && !s.prev.scl && w != [] && forall i :: 0 <= i < |w| ==> !w[i].scl
    ensures Bus(s, w) == s.(prev := Lines(false, w[|w| - 1].sda && s.drive))
    decreases |w|
  {
    hide Conditions, Rise, CppFall;
    var n := BusStep(s, w[0].scl, w[0].sda);
    assert n == s.(prev := Lines(false, w[0].sda && s.drive)) by {
      StepWhileLow(s, w[0].sda && s.drive);
    }
    if |w| > 1 {
      LowRun(n, w[1..]);
    }
  }

  lemma StepWhileLow(s: Slave, sda: bool)
    requires s.Valid() && !s.prev.scl
    ensures CppStep(s, false, sda) == s.(prev := Lines(false, sda))
  {
  }

  /** While both lines stay high or SDA stays where it is, nothing happens. */
  lemma {:induction false} HighRun(s: Slave, w: seq<Lines>, b: bool)
    requires s.Valid() && s.prev == Lines(true, b && s.drive) && forall i :: 0 <= i < |w| ==> w[i] == Lines(true, b)
    ensures Bus(s, w) == s
    decreases |w|
  {
    if w != [] {
      StepWhileHigh(s);
      HighRun(s, w[1..], b);
    }
  }

  lemma StepWhileHigh(s: Slave)
    requires s.Valid() && s.prev.scl
    ensures CppStep(s, true, s.prev.sda) == s
  {
  }

  lemma FallingStep(s: Slave, sda: bool)
    requires s.Valid() && s.prev.scl
    ensures CppStep(s, false, sda) == Fallen(s).(prev := Lines(false, sda))
  {
    hide BitOf, Select;
  }

  lemma RisingStep(s: Slave, b: bool)
    requires s.Valid() && s.prev == Lines(false, b)
    ensures CppStep(s, true, b) == (if s.st.IDLE? then s else Rise(s, b)).(prev := Lines(true, b))
  {
    hide ShiftIn;
  }

  /** The samples of a clocked bit: SCL low, then high. */
  function LowPart(b: bool, noise: seq<bool>, setup: nat): seq<Lines> {
    seq(|noise|, (i: nat) requires i < |noise| => Lines(false, noise[i])) + seq(setup, (i: nat) => Lines(false, b))
  }

  lemma LowPhase(s: Slave, b: bool, noise: seq<bool>, setup: nat)
    requires s.Valid() && s.prev.scl && noise != [] && setup > 0
    ensures Bus(s, LowPart(b, noise, setup)) == Fallen(s).(prev := Lines(false, b && Fallen(s).drive))
  {
    hide CppStep, Fallen;
    var w := LowPart(b, noise, setup);
    FallingStep(s, noise[0] && s.drive);
    assert w[0] == Lines(false, noise[0]) && w[|w| - 1] == Lines(false, b);
    LowRun(BusStep(s, w[0].scl, w[0].sda), w[1..]);
  }

  lemma HighPhase(s: Slave, b: bool, high: nat)
    requires s.Valid() && s.prev == Lines(false, b && s.drive) && high > 0
    ensures Bus(s, seq(high, (i: nat) => Lines(true, b)))
         == (if s.st.IDLE? then s else Rise(s, b && s.drive)).(prev := Lines(true, b && s.drive))
  {
    hide CppStep;
    var w := seq(high, (i: nat) => Lines(true, b));
    RisingStep(s, b && s.drive);
    RiseIgnoresPrev(s, b && s.drive, s.prev);
    hide Rise;
    HighRun(BusStep(s, true, b), w[1..], b);
  }

  /** A clocked bit has the effect of one falling and one rising edge, whatever the timing. */
  lemma ClockOnWire(s: Slave, y: Symbol)
    requires s.Valid() && s.prev.scl && y.Clock? && y.Timed()
    ensures Bus(s, y.Wave()) == Clocked(s, y.b)
  {
    var low, high := LowPart(y.b, y.noise, y.setup), seq(y.high, (i: nat) => Lines(true, y.b));
    var f := Fallen(s);
    var line := y.b && f.drive;
    RiseIgnoresPrev(f, line, Lines(false, line));
    hide Rise, Fallen, LowPart;
    LowPhase(s, y.b, y.noise, y.setup);
    HighPhase(f.(prev := Lines(false, line)), y.b, y.high);
    assert y.Wave() == low + high by { WaveIsLowHigh(y); }
    BusConcat(s, low, high);
  }

  lemma WaveIsLowHigh(y: Symbol)
    requires y.Clock?
    ensures y.Wave() == LowPart(y.b, y.noise, y.setup) + seq(y.high, (i: nat) => Lines(true, y.b))
  {
  }

  lemma RiseIgnoresPrev(s: Slave, b: bool, p: Lines)
    ensures Rise(s.(prev := p), b) == Rise(s, b).(prev := p)
    ensures Rise(s, b).drive == s.drive && Rise(s, b).mem == s.mem
  {
    hide ShiftIn;
  }

  // ------------------------------------------------------------ START and STOP

  datatype Device = Device(regs: seq<int>, ptr: int)

  function View(s: Slave): Device {
    Device(s.mem.regs, Select(s.mem.ptr))
  }

  /** Both lines are high and nobody is driving: a START may follow. */
  ghost predicate Ready(s: Slave, dev: Device) {
    s.Valid() && s.prev == Lines(true, true) && s.drive && View(s) == dev
  }

  ghost predicate Started(s: Slave, dev: Device) {
    && s.Valid() && s.st.ADDR? && s.bitCnt == 0 && s.drive && s.prev.scl
    && s.flags.firstWr && View(s) == dev
  }

  /** A byte is over, and once SCL falls SDA is free and the device is dev. */
  ghost predicate Freed(s: Slave, dev: Device) {
    s.Valid() && s.prev.scl && Fallen(s).drive && View(Fallen(s)) == dev
  }

  lemma StartOnWire(s: Slave, dev: Device, y: Symbol)
    requires Ready(s, dev) && y.Drop? && y.Timed()
    ensures Started(Bus(s, y.Wave()), dev)
  {
    var w := y.Wave();
    var n := BusStep(s, true, false);
    assert Started(n, dev) && n.prev == Lines(true, false);
    hide CppStep, Select;
    HighRun(n, w[1..], false);
  }

  /** SDA rising while SCL is high ends the transfer. */
  lemma StopOnWire(s: Slave, dev: Device, y: Symbol)
    requires s.Valid() && s.prev == Lines(true, false) && s.drive && View(s) == dev && y.Raise? && y.Timed()
    ensures Ready(Bus(s, y.Wave()), dev) && Bus(s, y.Wave()).st.IDLE?
  {
    var w := y.Wave();
    var n := BusStep(s, true, true);
    assert Ready(n, dev) && n.st.IDLE?;
    hide CppStep, Select;
    HighRun(n, w[1..], true);
  }

  /** One more clocked bit after a byte leaves the device alone and the lines at that bit. */
  lemma BitAfterByte(s: Slave, dev: Device, b: bool)
    requires Freed(s, dev)
    ensures var g := Clocked(s, b);
      g.prev == Lines(true, b) && g.drive && View(g) == dev
  {
    var f := Fallen(s);
    RiseIgnoresPrev(f, b, f.prev);
  }

  // ------------------------------------------------------------ runs of bits

  function Run(s: Slave, bits: seq<bool>): (r: Slave)
    requires s.Valid()
    ensures r.Valid()
    decreases |bits|
  {
    if bits == [] then s else Run(Clocked(s, bits[0]), bits[1..])
  }

  /** The levels the master samples. */
  function Sampled(s: Slave, bits: seq<bool>): (r: seq<bool>)
    requires s.Valid()
    ensures |r| == |bits|
    decreases |bits|
  {
    if bits == [] then []
    else
      var n := Clocked(s, bits[0]);
      [n.prev.sda] + Sampled(n, bits[1..])
  }

  lemma {:induction false} RunConcat(s: Slave, a: seq<bool>, b: seq<bool>)
    requires s.Valid()
    ensures Run(s, a + b) == Run(Run(s, a), b)
    ensures Sampled(s, a + b) == Sampled(s, a) + Sampled(Run(s, a), b)
    decreases |a|
  {
    hide Clocked;
    if a == [] {
      assert a + b == b;
    } else {
      RunConcat(Clocked(s, a[0]), a[1..], b);
      assert (a + b)[0] == a[0] && (a + b)[1..] == a[1..] + b;
    }
  }

  lemma RunFirst(s: Slave, bits: seq<bool>)
    requires s.Valid() && bits != []
    ensures var n := Clocked(s, bits[0]);
      && Run(s, bits) == Run(n, bits[1..])
      && Sampled(s, bits) == [n.prev.sda] + Sampled(n, bits[1..])
  {
  }

  /** The symbols clock out these bits. */
  ghost predicate Spells(ys: seq<Symbol>, bits: seq<bool>) {
    && |ys| == |bits|
    && forall i :: 0 <= i < |ys| ==> ys[i].Clock? && ys[i].Timed() && ys[i].b == bits[i]
  }

  function Waves(ys: seq<Symbol>): seq<Lines> {
    if ys == [] then [] else ys[0].Wave() + Waves(ys[1..])
  }

  /** The level of SDA at the end of each symbol. */
  function WireSamples(s: Slave, ys: seq<Symbol>): seq<bool>
    requires s.Valid()
    decreases |ys|
  {
    if ys == [] then []
    else
      var n := Bus(s, ys[0].Wave());
      [n.prev.sda] + WireSamples(n, ys[1..])
  }

  lemma {:induction false} BitsOnWire(s: Slave, ys: seq<Symbol>, bits: seq<bool>)
    requires s.Valid() && s.prev.scl && Spells(ys, bits)
    ensures Bus(s, Waves(ys)) == Run(s, bits)
    ensures WireSamples(s, ys) == Sampled(s, bits)
    decreases |ys|
  {
    if ys != [] {
      ClockOnWire(s, ys[0]);
      BusConcat(s, ys[0].Wave(), Waves(ys[1..]));
      BitsOnWire(Clocked(s, bits[0]), ys[1..], bits[1..]);
    }
  }

  // ------------------------------------------------------------ bytes

  /** Bits n - 1 down to 0. */
  function LowBits(b: int, n: nat): (r: seq<bool>)
    ensures |r| == n
  {
    if n == 0 then [] else [BitOf(b, n - 1)] + LowBits(b, n - 1)
  }

  /** Most significant bit first. */
  function ByteBits(b: int): (r: seq<bool>)
    ensures |r| == 8
  {
    LowBits(b, 8)
  }

  /** A byte goes over the bus with its highest bit first. */
  lemma {:induction false} HighestFirst(b: int, n: nat, i: nat)
    requires i < n <= 8
    ensures |LowBits(b, n)| == n && (LowBits(b, n)[i] <==> b / Pow2(n - 1 - i) % 2 == 1)
    ensures n == 8 ==> ByteBits(b) == LowBits(b, n)
  {
    hide Pow2;
    if i > 0 {
      HighestFirst(b, n - 1, i - 1);
    }
  }

  function ShiftAll(x: int, bits: seq<bool>): int
    decreases |bits|
  {
    if bits == [] then x else ShiftAll(ShiftIn(x, bits[0]), bits[1..])
  }

  /** Shifting one bit into a byte whose low part is r gives the low part 2r + bit. */
  lemma ShiftStep(x: int, r: int, m: nat, k: nat, b: bool)
    requires m > 0 && k * (2 * m) == 256 && x % m == r
    ensures ShiftIn(x, b) % (2 * m) == 2 * r + (if b then 1 else 0)
  {
    var bit := if b then 1 else 0;
    var q, y := x / m, 2 * x + bit;
    var c := y / 256;
    assert x == q * m + r;
    assert q * (2 * m) == 2 * (q * m);
    assert (q - c * k) * (2 * m) == q * (2 * m) - c * (k * (2 * m));
    DivModUnique(y % 256, 2 * m, q - c * k, 2 * r + bit);
  }

  /** Once the high part of a byte is in, shifting in the rest gives the byte. */
  lemma {:induction false} ShiftRest(x: int, b: int, n: nat)
    requires IsByte(b) && n <= 8 && x % Pow2(8 - n) == b / Pow2(n)
    ensures ShiftAll(x, LowBits(b, n)) % 256 == b
    ensures n > 0 ==> IsByte(ShiftAll(x, LowBits(b, n)))
    decreases n
  {
    if n == 0 {
      assert Pow2(8) == 256 by { EightBits(); }
    } else {
      var bit := BitOf(b, n - 1);
      NextBit(b, n - 1);
      EightBits();
      Pow2Add(n - 1, 9 - n);
      ShiftStep(x, b / Pow2(n), Pow2(8 - n), Pow2(n - 1), bit);
      ShiftRest(ShiftIn(x, bit), b, n - 1);
      assert LowBits(b, n)[1..] == LowBits(b, n - 1);
      if n == 1 {
        assert LowBits(b, 0) == [];
      }
    }
  }

  lemma EightBits()
    ensures Pow2(8) == 256
  {
    assert Pow2(4) == 16;
  }

  /** Shifting in the eight bits of a byte gives the byte, whatever was there before. */
  lemma ShiftedByte(x: int, b: int)
    requires IsByte(b)
    ensures ShiftAll(x, ByteBits(b)) == b
  {
    EightBits();
    ShiftRest(x, b, 8);
  }

  /** The slave is taking bits in: an address or a write byte. */
  ghost predicate Taking(s: Slave) {
    s.Valid() && (s.st.ADDR? || s.st.WR?) && s.drive && s.prev.scl
  }

  lemma TakeBit(s: Slave, b: bool)
    requires Taking(s) && 1 <= s.bitCnt <= 7
    ensures Clocked(s, b) == s.(bitCnt := s.bitCnt + 1, data := s.data.(shift := ShiftIn(s.data.shift, b)),
                                prev := Lines(true, b))
  {
    hide ShiftIn;
  }

  lemma {:induction false} TakeBits(s: Slave, bits: seq<bool>)
    requires Taking(s) && 1 <= s.bitCnt && s.bitCnt + |bits| <= 8 && bits != []
    ensures Run(s, bits) == s.(bitCnt := s.bitCnt + |bits|, data := s.data.(shift := ShiftAll(s.data.shift, bits)),
                               prev := Lines(true, bits[|bits| - 1]))
    ensures Sampled(s, bits) == bits
    decreases |bits|
  {
    hide ShiftIn, Clocked;
    TakeBit(s, bits[0]);
    if |bits| > 1 {
      TakeBits(Clocked(s, bits[0]), bits[1..]);
    }
  }

  /** A byte from the master: its bits are seen on the line and end up in the shift register. */
  lemma TakeByte(s: Slave, b: int)
    requires s.Valid() && s.prev.scl && IsByte(b)
    requires Taking(Fallen(s)) && Fallen(s).bitCnt == 0
    ensures var f := Fallen(s);
      Run(s, ByteBits(b)) == f.(bitCnt := 8, data := f.data.(shift := b), prev := Lines(true, BitOf(b, 0)))
    ensures Sampled(s, ByteBits(b)) == ByteBits(b)
  {
    hide ShiftIn, BitOf, Clocked, Fallen, Run, Sampled, LowBits;
    var f, bits := Fallen(s), ByteBits(b);
    TakeFirstBit(s, bits[0]);
    RunFirst(s, bits);
    EightOnes(b);
    LastBit(b, 7);
    TakeBits(Clocked(s, bits[0]), bits[1..]);
    ShiftedByte(f.data.shift, b);
  }

  lemma {:induction false} LastBit(b: int, n: nat)
    requires n > 0
    ensures LowBits(b, n)[n - 1] == BitOf(b, 0)
  {
    if n > 1 {
      LastBit(b, n - 1);
    }
  }

  lemma TakeFirstBit(s: Slave, b: bool)
    requires s.Valid() && s.prev.scl && Taking(Fallen(s)) && Fallen(s).bitCnt == 0
    ensures var f := Fallen(s);
      Clocked(s, b) == f.(bitCnt := 1, data := f.data.(shift := ShiftIn(f.data.shift, b)), prev := Lines(true, b))
  {
    hide ShiftIn, Fallen;
  }

  /** The slave is presenting bit 8 - bitCnt of the byte it sends. */
  ghost predicate Sending(s: Slave) {
    s.Valid() && s.st.RD? && s.prev.scl && 1 <= s.bitCnt <= 8 && s.drive == BitOf(s.data.txByte, 8 - s.bitCnt)
  }

  /** The parts of the state that sending does not touch. */
  ghost predicate Kept(s: Slave, r: Slave) {
    r.st == s.st && r.flags == s.flags && r.data == s.data && r.mem == s.mem
  }

  function Ones(n: nat): (r: seq<bool>)
    ensures |r| == n
  {
    seq(n, (i: nat) => true)
  }

  lemma SendBit(s: Slave)
    requires Sending(s) && s.bitCnt < 8
    ensures var c := Clocked(s, true);
      Sending(c) && c.bitCnt == s.bitCnt + 1 && Kept(s, c) && c.prev.sda == BitOf(s.data.txByte, 7 - s.bitCnt)
  {
    hide BitOf, ShiftIn;
  }

  lemma {:induction false} SendBits(s: Slave, n: nat)
    requires Sending(s) && s.bitCnt + n == 8
    ensures Sending(Run(s, Ones(n))) && Run(s, Ones(n)).bitCnt == 8 && Kept(s, Run(s, Ones(n)))
    ensures Run(s, Ones(n)).prev.scl
    ensures Sampled(s, Ones(n)) == LowBits(s.data.txByte, n)
    decreases n
  {
    hide BitOf, ShiftIn;
    if n > 0 {
      SendBit(s);
      RunFirst(s, Ones(n));
      assert Ones(n)[0] && Ones(n)[1..] == Ones(n - 1);
      hide Clocked, Run, Sampled, Ones;
      SendBits(Clocked(s, true), n - 1);
    }
  }

  /** A byte to the master, who releases the line: its bits come out, highest first. */
  lemma SendByte(s: Slave)
    requires s.Valid() && s.prev.scl
    requires var f := Fallen(s); f.st.RD? && f.bitCnt == 0 && f.drive == BitOf(f.data.txByte, 7)
    ensures Sending(Run(s, Ones(8))) && Run(s, Ones(8)).bitCnt == 8 && Kept(Fallen(s), Run(s, Ones(8)))
    ensures Run(s, Ones(8)).prev.scl
    ensures Sampled(s, Ones(8)) == ByteBits(Fallen(s).data.txByte)
  {
    hide BitOf, Fallen, Clocked, Run, Sampled, Ones, Sending, LowBits;
    SendFirstBit(s);
    RunFirst(s, Ones(8));
    EightOnes(Fallen(s).data.txByte);
    SendBits(Clocked(s, true), 7);
  }

  lemma EightOnes(b: int)
    ensures Ones(8)[0] && Ones(8)[1..] == Ones(7)
    ensures ByteBits(b) == [BitOf(b, 7)] + LowBits(b, 7)
  {
  }

  lemma SendFirstBit(s: Slave)
    requires s.Valid() && s.prev.scl
    requires var f := Fallen(s); f.st.RD? && f.bitCnt == 0 && f.drive == BitOf(f.data.txByte, 7)
    ensures var f, c := Fallen(s), Clocked(s, true);
      c.Valid() && Sending(c) && c.bitCnt == 1 && Kept(f, c) && c.prev.sda == BitOf(f.data.txByte, 7)
  {
    hide BitOf, ShiftIn, Fallen;
  }

  // ------------------------------------------------------------ transfers

  /** What a master asks for between a START and the next START or STOP. A read
      acknowledges every byte but the last. */
  datatype Transfer =
    | Write(addr: int, data: seq<int>)
    | Read(addr: int, count: nat)
  {
    predicate WellFormed() {
      && 0 <= addr < 128
      && (if Write? then forall i :: 0 <= i < |data| ==> IsByte(data[i]) else count > 0)
    }

    function AddressByte(): int { 2 * addr + (if Read? then 1 else 0) }

    /** The levels the master puts on SDA, one per clock; it releases SDA (true) in the ACK
        slots of a write and while it reads. */
    function Bits(): seq<bool> {
      ByteBits(AddressByte()) + [true] + if Write? then WriteBits(data) else ReadBits(count)
    }
  }

  /** Every transfer begins with the seven address bits, highest first, and the direction: high reads. */
  lemma AddressOnWire(t: Transfer, i: nat)
    requires t.WellFormed() && i < 8
    ensures |t.Bits()| >= 9 && t.Bits()[8]
    ensures i < 7 ==> (t.Bits()[i] <==> t.addr / Pow2(6 - i) % 2 == 1)
    ensures t.Bits()[7] <==> t.Read?
  {
    hide Pow2, LowBits, ByteBits, ReadBits, WriteBits;
    AddressByteFirst(t);
    HighestFirst(t.AddressByte(), 8, i);
    HighestFirst(t.AddressByte(), 8, 7);
    LowestBit(t.addr, if t.Read? then 1 else 0);
    if i < 7 {
      HalvedBit(t.addr, 6 - i, if t.Read? then 1 else 0);
    }
  }

  lemma AddressByteFirst(t: Transfer)
    ensures |t.Bits()| >= 9 && t.Bits()[..8] == ByteBits(t.AddressByte()) && t.Bits()[8]
  {
  }

  lemma LowestBit(a: nat, low: nat)
    requires low < 2
    ensures (2 * a + low) / Pow2(0) % 2 == low
  {
    assert Pow2(0) == 1;
  }

  lemma HalvedBit(a: nat, k: nat, low: nat)
    requires low < 2
    ensures (2 * a + low) / Pow2(k + 1) == a / Pow2(k)
  {
    var d := Pow2(k);
    assert Pow2(k + 1) == 2 * d && a == a / d * d + a % d;
    assert 2 * (a / d * d) == a / d * (2 * d);
    hide Pow2;
    DivModUnique(2 * a + low, 2 * d, a / d, 2 * (a % d) + low);
  }

  function WriteBits(data: seq<int>): seq<bool>
    decreases |data|
  {
    if data == [] then [] else ByteBits(data[0]) + [true] + WriteBits(data[1..])
  }

  function ReadBits(count: nat): seq<bool> {
    if count == 0 then [] else Ones(8) + [count == 1] + ReadBits(count - 1)
  }

  // the abstract device

  /** The first byte of a write sets the pointer. */
  function SetPointer(dev: Device, data: seq<int>): (r: Device)
    requires |dev.regs| == REGS
    ensures |r.regs| == REGS
  {
    if data == [] then dev else Store(dev.(ptr := Select(data[0])), data[1..])
  }

  /** The other bytes go to consecutive registers. */
  function Store(dev: Device, data: seq<int>): (r: Device)
    requires |dev.regs| == REGS
    ensures |r.regs| == REGS
    decreases |data|
  {
    if data == [] then dev
    else Store(Device(dev.regs[Select(dev.ptr) := data[0]], Select(dev.ptr + 1)), data[1..])
  }

  /** The last of n bytes that go to the i-th register from the pointer on. */
  function LastByte(n: nat, i: nat): nat
    requires i < n && i < REGS
  {
    i + (n - 1 - i) / REGS * REGS
  }

  lemma LastByteShifts(n: nat, i: nat)
    requires i < REGS
    ensures i < n ==> LastByte(n, i) < n
    ensures 0 < i < n ==> LastByte(n, i) == LastByte(n - 1, i - 1) + 1
    ensures n > REGS ==> LastByte(n, 0) == LastByte(n - 1, REGS - 1) + 1
    ensures 0 < n <= REGS ==> LastByte(n, 0) == 0
  {
  }

  /** A write of any length: the register at (ptr + i) mod 16 holds the last byte whose number
      is i mod 16, or what it held before if there is none, and the pointer is past the last. */
  lemma {:induction false} StoredAt(dev: Device, data: seq<int>, i: nat)
    requires |dev.regs| == REGS && i < REGS
    ensures i < |data| ==> LastByte(|data|, i) < |data|
    ensures Store(dev, data).regs[Select(dev.ptr + i)]
         == if i < |data| then data[LastByte(|data|, i)] else dev.regs[Select(dev.ptr + i)]
    ensures Select(Store(dev, data).ptr) == Select(dev.ptr + |data|)
    ensures data != [] ==> Store(dev, data).ptr == Select(dev.ptr + |data|)
    decreases |data|
  {
    hide LastByte, Select;
    LastByteShifts(|data|, i);
    if data != [] {
      var next := Device(dev.regs[Select(dev.ptr) := data[0]], Select(dev.ptr + 1));
      var j := if i > 0 then i - 1 else REGS - 1;
      SelectShift(dev.ptr + 1, |data| - 1);
      SelectShift(dev.ptr + |data|, 0);
      SelectShift(dev.ptr + 1, j);
      if i > 0 {
        SelectDiffers(dev.ptr, i);
      } else {
        SelectPeriod(dev.ptr);
      }
      StoredAt(next, data[1..], j);
    }
  }

  lemma SelectPeriod(p: int)
    ensures Select(p + REGS) == Select(p)
  {
  }

  lemma SelectShift(p: int, n: int)
    ensures Select(Select(p) + n) == Select(p + n)
  {
    var q, r := p / 16, p % 16;
    assert p + n == 16 * q + (r + n);
  }

  lemma SelectDiffers(p: int, n: nat)
    requires 0 < n < REGS
    ensures Select(p + n) != Select(p)
  {
  }

  lemma {:induction false} SentLength(dev: Device, count: nat)
    requires |dev.regs| == REGS
    ensures |Sent(dev, count)| == 9 * count
    decreases count
  {
    if count > 0 {
      SentLength(dev.(ptr := Select(dev.ptr + 1)), count - 1);
    }
  }

  /** Byte i of a read, with its ACK slot, is register (ptr + i) mod 16. */
  lemma {:induction false} SentAt(dev: Device, count: nat, i: nat)
    requires |dev.regs| == REGS && i < count
    ensures |Sent(dev, count)| == 9 * count
    ensures Sent(dev, count)[9 * i..9 * i + 9] == ByteBits(dev.regs[Select(dev.ptr + i)]) + [i == count - 1]
    decreases count
  {
    hide ByteBits, Select;
    var next := dev.(ptr := Select(dev.ptr + 1));
    SentLength(dev, count);
    SentLength(next, count - 1);
    var first, rest := ByteBits(dev.regs[Select(dev.ptr)]) + [count == 1], Sent(next, count - 1);
    assert Sent(dev, count) == first + rest;
    hide Sent;
    if i > 0 {
      SentAt(next, count - 1, i - 1);
      SelectShift(dev.ptr + 1, i - 1);
      TailSlice(first, rest, 9 * (i - 1), 9);
    } else {
      assert (first + rest)[0..9] == first;
    }
  }

  lemma TailSlice(first: seq<bool>, rest: seq<bool>, lo: nat, n: nat)
    requires lo + n <= |rest|
    ensures (first + rest)[|first| + lo..|first| + lo + n] == rest[lo..lo + n]
  {
  }

  /** What a transfer does to the device. */
  function Apply(dev: Device, t: Transfer): (r: Device)
    requires |dev.regs| == REGS
    ensures |r.regs| == REGS == 16
    ensures t.addr != 0x50 ==> r == dev
  {
    if t.addr != SLAVE_ADDR then dev
    else match t
      case Write(_, data) => SetPointer(dev, data)
      case Read(_, count) => if count == 0 then dev else dev.(ptr := Select(dev.ptr + count - 1))
  }

  /** The levels on SDA during the bytes of a read of an addressed device. */
  function Sent(dev: Device, count: nat): seq<bool>
    requires |dev.regs| == REGS
    decreases count
  {
    if count == 0 then []
    else ByteBits(dev.regs[Select(dev.ptr)]) + [count == 1] + Sent(dev.(ptr := Select(dev.ptr + 1)), count - 1)
  }

  /** The same, with every ACK slot pulled low, for the bytes of a write. */
  function Acknowledged(data: seq<int>): seq<bool>
    decreases |data|
  {
    if data == [] then [] else ByteBits(data[0]) + [false] + Acknowledged(data[1..])
  }

  lemma {:induction false} AcknowledgedLength(data: seq<int>)
    ensures |Acknowledged(data)| == 9 * |data|
    decreases |data|
  {
    if data != [] {
      AcknowledgedLength(data[1..]);
    }
  }

  /** Byte i of a write goes through unchanged, and the device pulls its ACK slot low. */
  lemma {:induction false} AcknowledgedAt(data: seq<int>, i: nat)
    requires i < |data|
    ensures |Acknowledged(data)| == 9 * |data|
    ensures Acknowledged(data)[9 * i..9 * i + 9] == ByteBits(data[i]) + [false]
    decreases |data|
  {
    hide ByteBits;
    AcknowledgedLength(data);
    AcknowledgedLength(data[1..]);
    var first, rest := ByteBits(data[0]) + [false], Acknowledged(data[1..]);
    assert Acknowledged(data) == first + rest;
    hide Acknowledged;
    if i > 0 {
      AcknowledgedAt(data[1..], i - 1);
      TailSlice(first, rest, 9 * (i - 1), 9);
    } else {
      assert (first + rest)[0..9] == first;
    }
  }

  /** The levels on SDA during a whole transfer. */
  function Reply(dev: Device, t: Transfer): (levels: seq<bool>)
    requires |dev.regs| == REGS
    ensures t.addr != 0x50 ==> levels == t.Bits()
    ensures t.addr == 0x50 ==> |levels| >= 9 && levels[..8] == t.Bits()[..8] && !levels[8]
  {
    if t.addr != SLAVE_ADDR then t.Bits()
    else ByteBits(t.AddressByte()) + [false] + (if t.Write? then Acknowledged(t.data) else Sent(dev, t.count))
  }

  // the slave, byte by byte

  /** After an address byte: addressed or not. */
  lemma AddressTaken(s: Slave, dev: Device, b: int)
    requires Started(s, dev) && IsByte(b)
    ensures var r, hit := Run(s, ByteBits(b) + [true]), b / 2 == SLAVE_ADDR;
      && Sampled(s, ByteBits(b) + [true]) == ByteBits(b) + [!hit]
      && r.prev.scl
      && (var f := Fallen(r);
          && View(f) == dev
          && if !hit then f.st.IDLE?
             else if b % 2 == 1 then ToSend(f, dev)
             else f.st.WR? && f.bitCnt == 0 && f.drive && f.flags.firstWr)
  {
    TakeByte(s, b);
    RunConcat(s, ByteBits(b), [true]);
    hide Run, Sampled, BitOf, LowBits;
    var m := Run(s, ByteBits(b));
    assert m == s.(bitCnt := 8, data := s.data.(shift := b), prev := m.prev);
    AddressAck(m);
  }

  /** The slave is about to send the register under the pointer. */
  ghost predicate ToSend(f: Slave, dev: Device) {
    && f.Valid() && f.st.RD? && f.bitCnt == 0 && View(f) == dev
    && f.data.txByte == dev.regs[dev.ptr] && f.drive == BitOf(f.data.txByte, 7)
  }

  lemma AddressAck(m: Slave)
    requires m.Valid() && m.st.ADDR? && m.bitCnt == 8 && m.prev.scl && m.flags.firstWr
    ensures var r, b, hit := Run(m, [true]), m.data.shift, m.data.shift / 2 == SLAVE_ADDR;
      && Sampled(m, [true]) == [!hit]
      && r.prev.scl
      && (var f := Fallen(r);
          && View(f) == View(m)
          && if !hit then f.st.IDLE?
             else if b % 2 == 1 then ToSend(f, View(m))
             else f.st.WR? && f.bitCnt == 0 && f.drive && f.flags.firstWr)
  {
    hide BitOf, Select;
    var c := Clocked(m, true);
    assert Run(m, [true]) == c;
  }

  /** After a write byte: acknowledged, and taken as pointer or as data. */
  lemma ByteTaken(s: Slave, b: int)
    requires s.Valid() && s.prev.scl && IsByte(b)
    requires var f := Fallen(s); f.st.WR? && f.bitCnt == 0 && f.drive
    ensures var f, r := Fallen(s), Run(s, ByteBits(b) + [true]);
      && Sampled(s, ByteBits(b) + [true]) == ByteBits(b) + [false]
      && r.prev.scl
      && (var g := Fallen(r);
          && g.st.WR? && g.bitCnt == 0 && g.drive && !g.flags.firstWr
          && g.mem == if f.flags.firstWr then f.mem.(ptr := b)
                      else Memory(f.mem.ptr + 1, f.mem.regs[Select(f.mem.ptr) := b]))
  {
    TakeByte(s, b);
    RunConcat(s, ByteBits(b), [true]);
    hide Run, Sampled, BitOf, LowBits;
    var m := Run(s, ByteBits(b));
    assert m == Fallen(s).(bitCnt := 8, data := Fallen(s).data.(shift := b), prev := m.prev);
    WriteAck(m);
  }

  lemma WriteAck(m: Slave)
    requires m.Valid() && m.st.WR? && m.bitCnt == 8 && m.prev.scl
    ensures var r := Run(m, [true]);
      && Sampled(m, [true]) == [false]
      && r.prev.scl
      && (var g := Fallen(r);
          && g.st.WR? && g.bitCnt == 0 && g.drive && !g.flags.firstWr
          && g.mem == if m.flags.firstWr then m.mem.(ptr := m.data.shift)
                      else Memory(m.mem.ptr + 1, m.mem.regs[Select(m.mem.ptr) := m.data.shift]))
  {
    hide BitOf, Select;
    var c := Clocked(m, true);
    assert Run(m, [true]) == c;
  }

  lemma EightSent(s: Slave, dev: Device)
    requires s.Valid() && s.prev.scl && ToSend(Fallen(s), dev)
    ensures var m := Run(s, Ones(8));
      m.st.RD? && m.bitCnt == 8 && m.prev.scl && View(m) == dev
    ensures |dev.regs| == REGS && 0 <= dev.ptr < REGS
    ensures Sampled(s, Ones(8)) == ByteBits(dev.regs[dev.ptr])
  {
    SendByte(s);
    hide Run, Sampled, Fallen, LowBits, Ones, BitOf;
  }

  /** After a byte sent: on an ACK the next register follows, on a NACK the slave goes idle. */
  lemma ByteSent(s: Slave, dev: Device, nack: bool)
    requires s.Valid() && s.prev.scl && ToSend(Fallen(s), dev)
    ensures |dev.regs| == REGS && 0 <= dev.ptr < REGS
    ensures Sampled(s, Ones(8) + [nack]) == ByteBits(dev.regs[dev.ptr]) + [nack]
    ensures var r := Run(s, Ones(8) + [nack]);
      && r.prev.scl
      && (if nack then Fallen(r).st.IDLE? && View(Fallen(r)) == dev
          else ToSend(Fallen(r), dev.(ptr := Select(dev.ptr + 1))))
  {
    hide Run, Sampled, Fallen, LowBits, Ones, View, ToSend, Clocked;
    EightSent(s, dev);
    RunConcat(s, Ones(8), [nack]);
    ReadAck(Run(s, Ones(8)), nack);
  }

  lemma ReadAck(m: Slave, nack: bool)
    requires m.Valid() && m.st.RD? && m.bitCnt == 8 && m.prev.scl
    ensures Sampled(m, [nack]) == [nack]
    ensures var r := Run(m, [nack]);
      && r.prev.scl
      && (if nack then Fallen(r).st.IDLE? && View(Fallen(r)) == View(m)
          else ToSend(Fallen(r), View(m).(ptr := Select(View(m).ptr + 1))))
  {
    SelectWraps(m.mem.ptr);
    hide BitOf, Select;
    var c := Clocked(m, nack);
    assert Run(m, [nack]) == c;
  }

  // whole transfers

  lemma {:induction false} Stored(s: Slave, data: seq<int>)
    requires s.Valid() && s.prev.scl && forall i :: 0 <= i < |data| ==> IsByte(data[i])
    requires var f := Fallen(s); f.st.WR? && f.bitCnt == 0 && f.drive && !f.flags.firstWr
    ensures Freed(Run(s, WriteBits(data)), Store(View(Fallen(s)), data))
    ensures Sampled(s, WriteBits(data)) == Acknowledged(data)
    decreases |data|
  {
    if data != [] {
      var first := ByteBits(data[0]) + [true];
      SelectWraps(Fallen(s).mem.ptr);
      ByteTaken(s, data[0]);
      RunConcat(s, first, WriteBits(data[1..]));
      hide Run, Sampled, Fallen, ByteBits, Select;
      Stored(Run(s, first), data[1..]);
    }
  }

  lemma Written(s: Slave, data: seq<int>)
    requires s.Valid() && s.prev.scl && forall i :: 0 <= i < |data| ==> IsByte(data[i])
    requires var f := Fallen(s); f.st.WR? && f.bitCnt == 0 && f.drive && f.flags.firstWr
    ensures Freed(Run(s, WriteBits(data)), SetPointer(View(Fallen(s)), data))
    ensures Sampled(s, WriteBits(data)) == Acknowledged(data)
  {
    if data != [] {
      var first := ByteBits(data[0]) + [true];
      ByteTaken(s, data[0]);
      RunConcat(s, first, WriteBits(data[1..]));
      hide Run, Sampled, Fallen, ByteBits, Select;
      Stored(Run(s, first), data[1..]);
    }
  }

  lemma {:induction false} ReadOut(s: Slave, dev: Device, count: nat)
    requires s.Valid() && s.prev.scl && ToSend(Fallen(s), dev) && count > 0
    ensures |dev.regs| == REGS
    ensures Freed(Run(s, ReadBits(count)), dev.(ptr := Select(dev.ptr + count - 1)))
    ensures Sampled(s, ReadBits(count)) == Sent(dev, count)
    decreases count
  {
    hide Run, Sampled, Fallen, ByteBits, Select, Ones, ToSend, ReadBits, Sent, Clocked;
    var first := Ones(8) + [count == 1];
    var next := dev.(ptr := Select(dev.ptr + 1));
    ByteSent(s, dev, count == 1);
    RunConcat(s, first, ReadBits(count - 1));
    SelectShift(dev.ptr + 1, count - 2);
    assert dev.ptr + 1 + (count - 2) == dev.ptr + count - 1;
    ReadUnfolds(dev, count);
    if count > 1 {
      ReadOut(Run(s, first), next, count - 1);
    } else {
      NothingRead(next);
      EmptyRun(Run(s, first));
    }
  }

  lemma ReadUnfolds(dev: Device, count: nat)
    requires |dev.regs| == REGS && 0 <= dev.ptr < REGS && count > 0
    ensures Select(dev.ptr) == dev.ptr
    ensures ReadBits(count) == Ones(8) + [count == 1] + ReadBits(count - 1)
    ensures Sent(dev, count) == ByteBits(dev.regs[dev.ptr]) + [count == 1]
                              + Sent(dev.(ptr := Select(dev.ptr + 1)), count - 1)
  {
    hide ByteBits, Ones;
  }

  lemma NothingRead(dev: Device)
    requires |dev.regs| == REGS
    ensures ReadBits(0) == [] && Sent(dev, 0) == []
  {
  }

  lemma EmptyRun(s: Slave)
    requires s.Valid()
    ensures Run(s, []) == s && Sampled(s, []) == []
  {
  }

  /** A slave that is not addressed lets every bit through. */
  lemma {:induction false} Bystander(s: Slave, bits: seq<bool>)
    requires s.Valid() && s.prev.scl && Fallen(s).st.IDLE?
    ensures Freed(Run(s, bits), View(Fallen(s)))
    ensures Sampled(s, bits) == bits
    decreases |bits|
  {
    if bits != [] {
      var n := Clocked(s, bits[0]);
      assert Fallen(n).st.IDLE? && View(Fallen(n)) == View(Fallen(s)) && n.prev == Lines(true, bits[0]);
      Bystander(n, bits[1..]);
    }
  }

  /** The main theorem for one transfer: the slave ends up holding what the abstract device
      holds, and the master samples what the abstract device replies. */
  lemma TransferMatches(s: Slave, dev: Device, t: Transfer)
    requires Started(s, dev) && t.WellFormed()
    ensures |dev.regs| == REGS
    ensures Freed(Run(s, t.Bits()), Apply(dev, t))
    ensures Sampled(s, t.Bits()) == Reply(dev, t)
  {
    hide Run, Sampled, Fallen, Clocked, Freed, ToSend;
    hide ByteBits, Select, WriteBits, ReadBits, Sent, Acknowledged, SetPointer;
    var head := ByteBits(t.AddressByte()) + [true];
    var tail := if t.Write? then WriteBits(t.data) else ReadBits(t.count);
    AddressTaken(s, dev, t.AddressByte());
    RunConcat(s, head, tail);
    AddressByteParts(t);
    DeviceHasRegisters(s, dev);
    if t.addr != SLAVE_ADDR {
      Bystander(Run(s, head), tail);
    } else if t.Write? {
      Written(Run(s, head), t.data);
    } else {
      ReadOut(Run(s, head), dev, t.count);
    }
  }

  lemma AddressByteParts(t: Transfer)
    requires t.WellFormed()
    ensures IsByte(t.AddressByte()) && t.AddressByte() / 2 == t.addr && (t.AddressByte() % 2 == 1 <==> t.Read?)
  {
  }

  lemma DeviceHasRegisters(s: Slave, dev: Device)
    requires Started(s, dev)
    ensures |dev.regs| == REGS
  {
  }

  // ------------------------------------------------------------ whole sessions

  /** A transfer on the wire: the START, the bits, and the bit clocked before the next START
      (SDA high) or before the STOP (SDA low). */
  datatype Leg = Leg(transfer: Transfer, start: Symbol, body: seq<Symbol>, next: Symbol)
  {
    ghost predicate WellFormed() {
      && transfer.WellFormed()
      && start.Drop? && start.Timed()
      && Spells(body, transfer.Bits())
      && next.Clock? && next.Timed()
    }

    function Wave(): seq<Lines> { start.Wave() + Waves(body) + next.Wave() }
  }

  /** Transfers joined by repeated STARTs. */
  ghost predicate Session(legs: seq<Leg>) {
    forall i :: 0 <= i < |legs| ==> legs[i].WellFormed() && legs[i].next.b == (i < |legs| - 1)
  }

  function SessionWave(legs: seq<Leg>): seq<Lines> {
    if legs == [] then [] else legs[0].Wave() + SessionWave(legs[1..])
  }

  function ApplyAll(dev: Device, legs: seq<Leg>): (r: Device)
    requires |dev.regs| == REGS
    ensures |r.regs| == REGS
    decreases |legs|
  {
    if legs == [] then dev else ApplyAll(Apply(dev, legs[0].transfer), legs[1..])
  }

  /** The slave when the bits of a leg start: after the START. */
  function AtStart(s: Slave, leg: Leg): (r: Slave)
    requires s.Valid()
    ensures r.Valid()
  {
    Bus(s, leg.start.Wave())
  }

  /** One leg: the device follows, and the samples taken while the bits are clocked are the
      device's reply. */
  lemma LegMatches(s: Slave, dev: Device, leg: Leg)
    requires Ready(s, dev) && leg.WellFormed()
    ensures |dev.regs| == REGS
    ensures WireSamples(AtStart(s, leg), leg.body) == Reply(dev, leg.transfer)
    ensures var r := Bus(s, leg.Wave());
      r.prev == Lines(true, leg.next.b) && r.drive && View(r) == Apply(dev, leg.transfer)
  {
    hide Run, Sampled, Clocked, Select, Apply, Reply;
    var t := leg.transfer;
    StartOnWire(s, dev, leg.start);
    var n := AtStart(s, leg);
    TransferMatches(n, dev, t);
    BitsOnWire(n, leg.body, t.Bits());
    var e := Run(n, t.Bits());
    ClockOnWire(e, leg.next);
    BitAfterByte(e, Apply(dev, t), leg.next.b);
    BusConcat(s, leg.start.Wave() + Waves(leg.body), leg.next.Wave());
    BusConcat(s, leg.start.Wave(), Waves(leg.body));
  }

  lemma SessionTail(legs: seq<Leg>)
    requires Session(legs) && legs != []
    ensures legs[0].WellFormed() && legs[0].next.b == (|legs| > 1) && Session(legs[1..])
  {
  }

  /** In every leg the master samples the reply of the device as the legs before left it. */
  ghost predicate Answered(s: Slave, dev: Device, legs: seq<Leg>)
    requires s.Valid() && |dev.regs| == REGS
    decreases |legs|
  {
    legs == [] ||
    (&& WireSamples(AtStart(s, legs[0]), legs[0].body) == Reply(dev, legs[0].transfer)
     && Answered(Bus(s, legs[0].Wave()), Apply(dev, legs[0].transfer), legs[1..]))
  }

  /** The main theorem: after a whole session the slave is idle and holds what the abstract
      device holds, and every transfer was answered as the abstract device answers. */
  lemma {:induction false} SessionMatches(s: Slave, dev: Device, legs: seq<Leg>, stop: Symbol)
    requires Ready(s, dev) && Session(legs) && legs != [] && stop.Raise? && stop.Timed()
    ensures |dev.regs| == REGS
    ensures Ready(Bus(s, SessionWave(legs) + stop.Wave()), ApplyAll(dev, legs))
    ensures Bus(s, SessionWave(legs) + stop.Wave()).st.IDLE?
    ensures Answered(s, dev, legs)
    decreases |legs|
  {
    hide Apply, View, Session, Reply, WireSamples;
    assert legs[0].WellFormed() && legs[0].next.b == (|legs| > 1) && Session(legs[1..]) by { SessionTail(legs); }
    var leg := legs[0];
    LegMatches(s, dev, leg);
    var n, next := Bus(s, leg.Wave()), Apply(dev, leg.transfer);
    BusConcat(s, leg.Wave(), SessionWave(legs[1..]) + stop.Wave());
    assert SessionWave(legs) + stop.Wave() == leg.Wave() + (SessionWave(legs[1..]) + stop.Wave());
    if |legs| == 1 {
      assert legs[1..] == [] && SessionWave([]) + stop.Wave() == stop.Wave();
      StopOnWire(n, next, stop);
    } else {
      SessionMatches(n, next, legs[1..], stop);
    }
  }

  // ------------------------------------------------------------ the same for the port

  /** The SystemVerilog slave on its own bus. */
  function SvBus(v: Slave, w: seq<Lines>): (r: Slave)
    requires v.Valid() && 0 <= v.mem.ptr < REGS
    ensures r.Valid() && 0 <= r.mem.ptr < REGS
    decreases |w|
  {
    if w == [] then v
    else
      SvStepValid(v, w[0].scl, w[0].sda && v.drive);
      SvBus(SvStep(v, w[0].scl, w[0].sda && v.drive), w[1..])
  }

  /** What the master samples from it. */
  function SvSamples(v: Slave, ys: seq<Symbol>): seq<bool>
    requires v.Valid() && 0 <= v.mem.ptr < REGS
    decreases |ys|
  {
    if ys == [] then []
    else
      var n := SvBus(v, ys[0].Wave());
      [n.prev.sda] + SvSamples(n, ys[1..])
  }

  /** In every leg the master samples the reply of the device as the legs before left it. */
  ghost predicate SvAnswered(v: Slave, dev: Device, legs: seq<Leg>)
    requires v.Valid() && 0 <= v.mem.ptr < REGS && |dev.regs| == REGS
    decreases |legs|
  {
    legs == [] ||
    (&& SvSamples(SvBus(v, legs[0].start.Wave()), legs[0].body) == Reply(dev, legs[0].transfer)
     && SvAnswered(SvBus(v, legs[0].Wave()), Apply(dev, legs[0].transfer), legs[1..]))
  }

  lemma {:induction false} BusesInLockstep(c: Slave, v: Slave, w: seq<Lines>)
    requires Lockstep(c, v)
    ensures Lockstep(Bus(c, w), SvBus(v, w))
    decreases |w|
  {
    hide CppStep, SvStep;
    if w != [] {
      StepKeepsLockstep(c, v, w[0].scl, w[0].sda && v.drive);
      SvStepValid(v, w[0].scl, w[0].sda && v.drive);
      BusesInLockstep(BusStep(c, w[0].scl, w[0].sda), SvStep(v, w[0].scl, w[0].sda && v.drive), w[1..]);
    }
  }

  lemma {:induction false} SamplesInLockstep(c: Slave, v: Slave, ys: seq<Symbol>)
    requires Lockstep(c, v)
    ensures SvSamples(v, ys) == WireSamples(c, ys)
    decreases |ys|
  {
    hide Bus, SvBus;
    if ys != [] {
      BusesInLockstep(c, v, ys[0].Wave());
      SamplesInLockstep(Bus(c, ys[0].Wave()), SvBus(v, ys[0].Wave()), ys[1..]);
    }
  }

  lemma {:induction false} AnswersInLockstep(c: Slave, v: Slave, dev: Device, legs: seq<Leg>)
    requires Lockstep(c, v) && |dev.regs| == REGS && Answered(c, dev, legs)
    ensures SvAnswered(v, dev, legs)
    decreases |legs|
  {
    hide Bus, SvBus, Apply, Reply, WireSamples, SvSamples, Select;
    if legs != [] {
      BusesInLockstep(c, v, legs[0].start.Wave());
      SamplesInLockstep(AtStart(c, legs[0]), SvBus(v, legs[0].start.Wave()), legs[0].body);
      BusesInLockstep(c, v, legs[0].Wave());
      AnswersInLockstep(Bus(c, legs[0].Wave()), SvBus(v, legs[0].Wave()), Apply(dev, legs[0].transfer), legs[1..]);
    }
  }

  /** From reset, the SystemVerilog slave on its own bus answers every transfer of a session as the
      abstract device does, and ends with its registers and pointer. */
  lemma PortMatches(legs: seq<Leg>, stop: Symbol)
    requires Session(legs) && legs != [] && stop.Raise? && stop.Timed()
    ensures AfterReset(false).Valid()
    ensures SvAnswered(AfterReset(false), Device(InitRegs(), 0), legs)
    ensures var r := SvBus(AfterReset(false), SessionWave(legs) + stop.Wave());
      Device(r.mem.regs, r.mem.ptr) == ApplyAll(Device(InitRegs(), 0), legs) && r.st.IDLE? && r.drive
  {
    ResetInLockstep();
    var c, v, dev := AfterReset(true), AfterReset(false), Device(InitRegs(), 0);
    SessionMatches(c, dev, legs, stop);
    AnswersInLockstep(c, v, dev, legs);
    BusesInLockstep(c, v, SessionWave(legs) + stop.Wave());
  }
}
