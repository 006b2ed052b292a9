/** The register-file I2C slave in its two versions: the C++ model of the test bench
    (sim/hw/i2c_tb/i2c_tb.cpp) and its SystemVerilog port (sim/i2c_slave_model.sv). */
module I2cSlave {
  import opened PowersOfTwo

  datatype St = IDLE | ADDR | WR | RD

  const SLAVE_ADDR := 0x50
  const REGS := 16

  /** masterAck holds the level sampled in the ACK slot of a read byte: true is a NACK. */
  datatype Flags = Flags(isRead: bool, addrMatch: bool, firstWr: bool, masterAck: bool)

  datatype Data = Data(shift: int, txByte: int)

  datatype Lines = Lines(scl: bool, sda: bool)

  datatype Memory = Memory(ptr: int, regs: seq<int>)

  /** Line levels and the drive are true for high (released). */
  datatype Slave = Slave(
    st: St, bitCnt: int, flags: Flags, data: Data, drive: bool, prev: Lines, mem: Memory)
  {
    ghost predicate Valid() {
      && |mem.regs| == REGS && 0 <= bitCnt <= 9
      && (st.IDLE? ==> drive)
    }

    /** What the slave does to the SDA line. */
    predicate Pulls() { !drive }
  }

  function ShiftIn(shift: int, b: bool): int {
    (2 * shift + (if b then 1 else 0)) % 256
  }

  /** The register that a pointer value selects. */
  function Select(ptr: int): (i: int)
    ensures 0 <= i < REGS
  {
    ptr % REGS
  }

  lemma SelectWraps(ptr: int)
    ensures Select(Select(ptr)) == Select(ptr)
    ensures Select(Select(ptr) + 1) == Select(ptr + 1)
    ensures 0 <= ptr < REGS ==> Select(ptr) == ptr
  {
    assert (ptr % 16 + 1) % 16 == (ptr + 1) % 16;
  }

  // ------------------------------------------------------------ pieces shared by both versions

  /** START, repeated START and STOP are recognised while SCL is high. */
  function Conditions(s: Slave, scl: bool, sdaF: bool, sdaR: bool): Slave {
    if scl && sdaF then
      s.(st := ADDR, bitCnt := 0, data := s.data.(shift := 0),
         flags := s.flags.(addrMatch := false, firstWr := true), drive := true)
    else if scl && sdaR && !s.st.IDLE? then
      s.(st := IDLE, drive := true)
    else s
  }

  /** SCL rising inside a transfer. */
  function Rise(s: Slave, sda: bool): Slave {
    if s.bitCnt < 8 then
      s.(data := if s.st.ADDR? || s.st.WR? then s.data.(shift := ShiftIn(s.data.shift, sda)) else s.data,
         bitCnt := s.bitCnt + 1)
    else if s.bitCnt == 8 then
      s.(flags := if s.st.RD? then s.flags.(masterAck := sda) else s.flags, bitCnt := s.bitCnt + 1)
    else s
  }

  /** SCL falling before the ACK slot has passed. */
  function FallInByte(s: Slave): Slave
    requires 0 <= s.bitCnt <= 8
  {
    if s.bitCnt <= 7 then
      if s.st.RD? && s.bitCnt >= 1 then s.(drive := BitOf(s.data.txByte, 7 - s.bitCnt)) else s
    else if s.st.ADDR? then
      var m := s.data.shift / 2 == SLAVE_ADDR;
      s.(flags := s.flags.(addrMatch := m, isRead := s.data.shift % 2 == 1), drive := !m)
    else s.(drive := !s.st.WR?)
  }

  // ------------------------------------------------------------ the C++ model

  function CppPostAck(s: Slave): Slave
    requires |s.mem.regs| == REGS
  {
    var m := s.mem;
    match s.st
    case ADDR =>
      if !s.flags.addrMatch then s.(drive := true, bitCnt := 0, st := IDLE)
      else if s.flags.isRead then
        var b := m.regs[Select(m.ptr)];
        s.(drive := BitOf(b, 7), bitCnt := 0, st := RD, data := s.data.(txByte := b))
      else s.(drive := true, bitCnt := 0, st := WR)
    case WR =>
      if s.flags.firstWr then
        s.(drive := true, bitCnt := 0, mem := m.(ptr := s.data.shift), flags := s.flags.(firstWr := false))
      else
        s.(drive := true, bitCnt := 0, mem := Memory(m.ptr + 1, m.regs[Select(m.ptr) := s.data.shift]))
    case RD =>
      if !s.flags.masterAck then
        var b := m.regs[Select(m.ptr + 1)];
        s.(drive := BitOf(b, 7), bitCnt := 0, mem := m.(ptr := m.ptr + 1), data := s.data.(txByte := b))
      else s.(drive := true, bitCnt := 0, st := IDLE)
    case IDLE => s.(drive := true, bitCnt := 0)
  }

  function CppFall(s: Slave): Slave
    requires |s.mem.regs| == REGS
  {
    if 0 <= s.bitCnt <= 8 then FallInByte(s) else if s.bitCnt == 9 then CppPostAck(s) else s
  }

  /** One call of I2cSlave::step with the settled line levels. */
  function CppStep(s: Slave, scl: bool, sda: bool): Slave
    requires |s.mem.regs| == REGS
  {
    var c := Conditions(s.(prev := Lines(scl, sda)), scl, !sda && s.prev.sda, sda && !s.prev.sda);
    if c.st.IDLE? then c
    else if scl && !s.prev.scl then Rise(c, sda)
    else if !scl && s.prev.scl then CppFall(c)
    else c
  }

  // ------------------------------------------------------------ the SystemVerilog port

  /** The combinational post-ACK transition: the data byte is not written here. */
  function SvPostAck(s: Slave): Slave
    requires |s.mem.regs| == REGS && 0 <= s.mem.ptr < REGS
  {
    var m := s.mem;
    match s.st
    case ADDR =>
      if !s.flags.addrMatch then s.(drive := true, bitCnt := 0, st := IDLE)
      else if s.flags.isRead then
        s.(drive := BitOf(m.regs[m.ptr], 7), bitCnt := 0, st := RD, data := s.data.(txByte := m.regs[m.ptr]))
      else s.(drive := true, bitCnt := 0, st := WR)
    case WR =>
      if s.flags.firstWr then
        s.(drive := true, bitCnt := 0, mem := m.(ptr := Select(s.data.shift)), flags := s.flags.(firstWr := false))
      else s.(drive := true, bitCnt := 0, mem := m.(ptr := Select(m.ptr + 1)))
    case RD =>
      if !s.flags.masterAck then
        var p := Select(m.ptr + 1);
        s.(drive := BitOf(m.regs[p], 7), bitCnt := 0, mem := m.(ptr := p), data := s.data.(txByte := m.regs[p]))
      else s.(drive := true, bitCnt := 0, st := IDLE)
    case IDLE => s.(drive := true, bitCnt := 0)
  }

  function SvFall(s: Slave): Slave
    requires |s.mem.regs| == REGS && 0 <= s.mem.ptr < REGS
  {
    if 0 <= s.bitCnt <= 8 then FallInByte(s) else if s.bitCnt == 9 then SvPostAck(s) else s
  }

  /** The register file after the write port, which is fed from the state before the clock. */
  function SvRegs(s: Slave, scl: bool): seq<int>
    requires |s.mem.regs| == REGS && 0 <= s.mem.ptr < REGS
  {
    if !scl && s.prev.scl && s.st.WR? && s.bitCnt == 9 && !s.flags.firstWr
    then s.mem.regs[s.mem.ptr := s.data.shift]
    else s.mem.regs
  }

  /** One clock: the next-state block, and the register file. */
  function SvStep(s: Slave, scl: bool, sda: bool): Slave
    requires |s.mem.regs| == REGS && 0 <= s.mem.ptr < REGS
  {
    var c := Conditions(s.(prev := Lines(scl, sda)), scl, !sda && s.prev.sda, sda && !s.prev.sda);
    var n :=
      if c.st.IDLE? then c
      else if scl && !s.prev.scl then Rise(c, sda)
      else if !scl && s.prev.scl then SvFall(c)
      else c;
    n.(mem := Memory(n.mem.ptr, SvRegs(s, scl)))
  }

  // ------------------------------------------------------------ the programs

  /** The registers as the harness initialises them. */
  function InitRegs(): seq<int> { seq(REGS, (i: nat) requires i < REGS => 0x10 + i) }

  /** Both versions start idle with the lines high; they differ in one flag. */
  function AfterReset(firstWr: bool): Slave {
    Slave(IDLE, 0, Flags(false, false, firstWr, false), Data(0, 0), true, Lines(true, true), Memory(0, InitRegs()))
  }

  class CppSlave {
    var st: St
    var bitCnt: int
    var shift: int
    var isRead: bool
    var addrMatch: bool
    var firstWr: bool
    var regPtr: int
    var masterAck: bool
    var txByte: int
    var drive: bool
    var sclPrev: bool
    var sdaPrev: bool
    const regs: array<int>

    ghost function Value(): Slave
      reads this, regs
    {
      Slave(st, bitCnt, Flags(isRead, addrMatch, firstWr, masterAck), Data(shift, txByte), drive,
            Lines(sclPrev, sdaPrev), Memory(regPtr, regs[..]))
    }

    constructor ()
      ensures fresh(regs)
      ensures Value() == AfterReset(true)
    {
      st, bitCnt, shift, isRead, addrMatch, firstWr := IDLE, 0, 0, false, false, true;
      regPtr, masterAck, txByte, drive, sclPrev, sdaPrev := 0, false, 0, true, true, true;
      regs := new int[REGS]((i: nat) requires i < REGS => 0x10 + i);
    }

    /** The line levels come in; what the slave pulls goes out. */
    method Step(scl: bool, sda: bool) returns (sdaOe: bool)
      requires Value().Valid()
      modifies this, regs
      ensures Value() == CppStep(old(Value()), scl, sda)
      ensures Value().Valid()
      ensures sdaOe == Value().Pulls()
    {
      var sclR, sclF := scl && !sclPrev, !scl && sclPrev;
      var sdaF, sdaR := !sda && sdaPrev, sda && !sdaPrev;
      CppStepValid(Value(), scl, sda);
      ConditionsValid(Value(), scl, sda);
      hide Conditions, Rise, CppFall;
      sclPrev, sdaPrev := scl, sda;
      StartStop(scl, sdaF, sdaR);
      if st == IDLE {
        return false;
      }
      if sclR {
        SclRise(sda);
      } else if sclF {
        SclFall();
      }
      sdaOe := !drive;
    }

    method StartStop(scl: bool, sdaF: bool, sdaR: bool)
      modifies this
      ensures Value() == Conditions(old(Value()), scl, sdaF, sdaR)
    {
      if scl {
        if sdaF {
          st, bitCnt, shift, addrMatch, firstWr, drive := ADDR, 0, 0, false, true, true;
        } else if sdaR && st != IDLE {
          st, drive := IDLE, true;
        }
      }
    }

    method SclRise(sda: bool)
      requires 0 <= bitCnt <= 9
      modifies this
      ensures Value() == Rise(old(Value()), sda)
    {
      hide ShiftIn;
      if bitCnt < 8 {
        if st == ADDR || st == WR {
          shift := ShiftIn(shift, sda);
        }
        bitCnt := bitCnt + 1;
      } else if bitCnt == 8 {
        if st == RD {
          masterAck := sda;
        }
        bitCnt := bitCnt + 1;
      }
    }

    method SclFall()
      requires regs.Length == REGS && st != IDLE && bitCnt >= 0
      modifies this, regs
      ensures Value() == CppFall(old(Value()))
    {
      hide BitOf, CppPostAck;
      if bitCnt <= 7 {
        if st == RD && bitCnt >= 1 {
          drive := BitOf(txByte, 7 - bitCnt);
        }
      } else if bitCnt == 8 {
        if st == ADDR {
          addrMatch := shift / 2 == SLAVE_ADDR;
          isRead := shift % 2 == 1;
          drive := !addrMatch;
        } else if st == WR {
          drive := false;
        } else if st == RD {
          drive := true;
        }
      } else if bitCnt == 9 {
        PostAck();
      }
    }

    method PostAck()
      requires regs.Length == REGS && st != IDLE && bitCnt >= 0
      modifies this, regs
      ensures Value() == CppPostAck(old(Value()))
    {
      hide BitOf, Select;
      drive, bitCnt := true, 0;
      if st == ADDR {
        if !addrMatch {
          st := IDLE;
        } else if isRead {
          st := RD;
          txByte := regs[Select(regPtr)];
          drive := BitOf(txByte, 7);
        } else {
          st := WR;
        }
      } else if st == WR {
        if firstWr {
          regPtr, firstWr := shift, false;
        } else {
          regs[Select(regPtr)] := shift;
          regPtr := regPtr + 1;
        }
      } else if st == RD {
        if !masterAck {
          regPtr := regPtr + 1;
          txByte := regs[Select(regPtr)];
          drive := BitOf(txByte, 7);
        } else {
          st := IDLE;
        }
      }
    }
  }

  /** The registers of the module; the combinational block is the first half of Clock. */
  class SvSlave {
    var q: Slave

    constructor ()
      ensures q == AfterReset(false)
    {
      q := AfterReset(false);
    }

    method Clock(scl: bool, sda: bool)
      requires q.Valid() && 0 <= q.mem.ptr < REGS
      modifies this
      ensures q == SvStep(old(q), scl, sda)
    {
      hide Rise, SvFall;
      var sclR, sclF := scl && !q.prev.scl, !scl && q.prev.scl;
      var sdaF, sdaR := !sda && q.prev.sda, sda && !q.prev.sda;
      var d := q.(prev := Lines(scl, sda));
      if scl {
        if sdaF {
          d := d.(st := ADDR, bitCnt := 0, data := d.data.(shift := 0),
                  flags := d.flags.(addrMatch := false, firstWr := true), drive := true);
        } else if sdaR && q.st != IDLE {
          d := d.(st := IDLE, drive := true);
        }
      }
      ConditionsInRange(d, scl, sda);
      if d.st != IDLE {
        if sclR {
          d := RisingEdge(d, sda);
        } else if sclF {
          d := FallingEdge(d);
        }
      }
      var regs := q.mem.regs;
      if sclF && q.st == WR && q.bitCnt == 9 && !q.flags.firstWr {
        regs := regs[q.mem.ptr := q.data.shift];
      }
      q := d.(mem := Memory(d.mem.ptr, regs));
    }

    lemma ConditionsInRange(d: Slave, scl: bool, sda: bool)
      requires q.Valid() && 0 <= q.mem.ptr < REGS
      requires d == Conditions(q.(prev := Lines(scl, sda)), scl, !sda && q.prev.sda, sda && !q.prev.sda)
      ensures |d.mem.regs| == REGS && 0 <= d.mem.ptr < REGS && 0 <= d.bitCnt <= 9
    {
      ConditionsValid(q, scl, sda);
    }

    /** The next-state block on SCL rising. */
    method RisingEdge(d0: Slave, sda: bool) returns (d: Slave)
      requires 0 <= d0.bitCnt <= 9
      ensures d == Rise(d0, sda)
    {
      d := d0;
      if d.bitCnt < 8 {
        if d.st == ADDR || d.st == WR {
          d := d.(data := d.data.(shift := ShiftIn(d.data.shift, sda)));
        }
        d := d.(bitCnt := d.bitCnt + 1);
      } else if d.bitCnt == 8 {
        if d.st == RD {
          d := d.(flags := d.flags.(masterAck := sda));
        }
        d := d.(bitCnt := d.bitCnt + 1);
      }
    }

    /** The next-state block on SCL falling. */
    method FallingEdge(d0: Slave) returns (d: Slave)
      requires |d0.mem.regs| == REGS && 0 <= d0.mem.ptr < REGS && 0 <= d0.bitCnt <= 9 && d0.st != IDLE
      ensures d == SvFall(d0)
    {
      hide BitOf, SvPostAck;
      d := d0;
      if d.bitCnt <= 7 {
        if d.st == RD && d.bitCnt >= 1 {
          d := d.(drive := BitOf(d.data.txByte, 7 - d.bitCnt));
        }
      } else if d.bitCnt == 8 {
        if d.st == ADDR {
          d := d.(flags := d.flags.(addrMatch := d.data.shift / 2 == SLAVE_ADDR));
          d := d.(flags := d.flags.(isRead := d.data.shift % 2 == 1));
          d := d.(drive := !d.flags.addrMatch);
        } else if d.st == WR {
          d := d.(drive := false);
        } else {
          d := d.(drive := true);
        }
      } else if d.bitCnt == 9 {
        d := AfterAck(d);
      }
    }

    /** The post-ACK transition; a data byte itself goes through the write port. */
    method AfterAck(d0: Slave) returns (d: Slave)
      requires |d0.mem.regs| == REGS && 0 <= d0.mem.ptr < REGS && d0.st != IDLE
      ensures d == SvPostAck(d0)
    {
      hide BitOf;
      d := d0.(drive := true, bitCnt := 0);
      if d.st == ADDR {
        if !d.flags.addrMatch {
          d := d.(st := IDLE);
        } else if d.flags.isRead {
          d := d.(st := RD, data := d.data.(txByte := d.mem.regs[d.mem.ptr]));
          d := d.(drive := BitOf(d.data.txByte, 7));
        } else {
          d := d.(st := WR);
        }
      } else if d.st == WR {
        if d.flags.firstWr {
          d := d.(mem := d.mem.(ptr := Select(d.data.shift)), flags := d.flags.(firstWr := false));
        } else {
          d := d.(mem := d.mem.(ptr := Select(d.mem.ptr + 1)));
        }
      } else {
        if !d.flags.masterAck {
          d := d.(mem := d.mem.(ptr := Select(d.mem.ptr + 1)));
          d := d.(data := d.data.(txByte := d.mem.regs[d.mem.ptr]));
          d := d.(drive := BitOf(d.data.txByte, 7));
        } else {
          d := d.(st := IDLE);
        }
      }
    }
  }

  // ------------------------------------------------------------ invariants and lockstep

  lemma ConditionsValid(s: Slave, scl: bool, sda: bool)
    requires s.Valid()
    ensures Conditions(s.(prev := Lines(scl, sda)), scl, !sda && s.prev.sda, sda && !s.prev.sda).Valid()
  {
  }

  lemma EdgesValid(s: Slave, sda: bool)
    requires s.Valid() && !s.st.IDLE?
    ensures Rise(s, sda).Valid() && CppFall(s).Valid()
  {
    hide BitOf, ShiftIn, Select;
  }

  lemma CppStepValid(s: Slave, scl: bool, sda: bool)
    requires s.Valid()
    ensures CppStep(s, scl, sda).Valid()
  {
    ConditionsValid(s, scl, sda);
    var c := Conditions(s.(prev := Lines(scl, sda)), scl, !sda && s.prev.sda, sda && !s.prev.sda);
    if !c.st.IDLE? {
      EdgesValid(c, sda);
    }
    hide Conditions, Rise, CppFall;
  }

  /** The same state, up to the pointer's width and a first-byte flag nobody looks at while
      idle. */
  ghost predicate Lockstep(c: Slave, v: Slave) {
    && c.Valid() && v.Valid() && 0 <= v.mem.ptr < REGS
    && v == c.(mem := Memory(Select(c.mem.ptr), c.mem.regs), flags := c.flags.(firstWr := v.flags.firstWr))
    && (!c.st.IDLE? ==> c.flags == v.flags)
  }

  /** Both versions take the same post-ACK transition; the port writes the data byte in the
      same clock, through a port that looks at the state before it. */
  lemma PostAckLockstep(c: Slave, v: Slave)
    requires Lockstep(c, v) && !c.st.IDLE?
    ensures var n := SvPostAck(v);
      Lockstep(CppPostAck(c), n.(mem := Memory(n.mem.ptr,
        if v.st.WR? && !v.flags.firstWr then v.mem.regs[v.mem.ptr := v.data.shift] else v.mem.regs)))
  {
    hide BitOf, Select;
    SelectWraps(c.mem.ptr);
    SelectWraps(c.data.shift);
  }

  lemma EdgesLockstep(c: Slave, v: Slave, sda: bool)
    requires Lockstep(c, v) && !c.st.IDLE?
    ensures Lockstep(Rise(c, sda), Rise(v, sda))
    ensures c.bitCnt <= 8 ==> Lockstep(FallInByte(c), FallInByte(v))
  {
    hide BitOf, ShiftIn, Select;
  }

  lemma ConditionsLockstep(c: Slave, v: Slave, scl: bool, sda: bool)
    requires Lockstep(c, v)
    ensures Lockstep(Conditions(c.(prev := Lines(scl, sda)), scl, !sda && c.prev.sda, sda && !c.prev.sda),
                     Conditions(v.(prev := Lines(scl, sda)), scl, !sda && v.prev.sda, sda && !v.prev.sda))
  {
    hide Select;
  }

  lemma StepKeepsLockstep(c: Slave, v: Slave, scl: bool, sda: bool)
    requires Lockstep(c, v)
    ensures Lockstep(CppStep(c, scl, sda), SvStep(v, scl, sda))
  {
    ConditionsLockstep(c, v, scl, sda);
    var c' := Conditions(c.(prev := Lines(scl, sda)), scl, !sda && c.prev.sda, sda && !c.prev.sda);
    var v' := Conditions(v.(prev := Lines(scl, sda)), scl, !sda && v.prev.sda, sda && !v.prev.sda);
    assert !scl ==> c' == c.(prev := Lines(scl, sda)) && v' == v.(prev := Lines(scl, sda));
    assert scl ==> SvRegs(v, scl) == v'.mem.regs;
    if !c'.st.IDLE? {
      EdgesLockstep(c', v', sda);
      PostAckLockstep(c', v');
    }
    hide Conditions, Rise, FallInByte, CppPostAck, SvPostAck, Select;
  }

  /** From reset the two versions are in lockstep. */
  lemma ResetInLockstep()
    ensures Lockstep(AfterReset(true), AfterReset(false))
    ensures var m := AfterReset(true).mem; |m.regs| == 16 && forall i :: 0 <= i < 16 ==> m.regs[i] == 16 + i
  {
  }

  function CppRun(s: Slave, w: seq<Lines>): (r: Slave)
    requires s.Valid()
    ensures r.Valid()
    decreases |w|
  {
    if w == [] then s
    else
      CppStepValid(s, w[0].scl, w[0].sda);
      CppRun(CppStep(s, w[0].scl, w[0].sda), w[1..])
  }

  function SvRun(s: Slave, w: seq<Lines>): (r: Slave)
    requires s.Valid() && 0 <= s.mem.ptr < REGS
    ensures r.Valid() && 0 <= r.mem.ptr < REGS
    decreases |w|
  {
    if w == [] then s
    else
      SvStepValid(s, w[0].scl, w[0].sda);
      SvRun(SvStep(s, w[0].scl, w[0].sda), w[1..])
  }

  lemma SvStepValid(s: Slave, scl: bool, sda: bool)
    requires s.Valid() && 0 <= s.mem.ptr < REGS
    ensures SvStep(s, scl, sda).Valid() && 0 <= SvStep(s, scl, sda).mem.ptr < REGS
  {
    assert Lockstep(s, s);
    StepKeepsLockstep(s, s, scl, sda);
    hide SvStep, CppStep, Select;
  }

  /** For every sequence of line levels, legal or not, the two versions stay in lockstep: same
      state, same registers, same pull on SDA, and the pointer equal modulo 16. */
  lemma {:induction false} RunsKeepLockstep(c: Slave, v: Slave, w: seq<Lines>)
    requires Lockstep(c, v)
    ensures Lockstep(CppRun(c, w), SvRun(v, w))
    ensures CppRun(c, w).Pulls() == SvRun(v, w).Pulls()
    decreases |w|
  {
    hide CppStep, SvStep;
    if w != [] {
      StepKeepsLockstep(c, v, w[0].scl, w[0].sda);
      RunsKeepLockstep(CppStep(c, w[0].scl, w[0].sda), SvStep(v, w[0].scl, w[0].sda), w[1..]);
    }
  }
}
