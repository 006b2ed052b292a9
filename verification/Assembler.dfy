/** The two-pass RISC-V assembler of sim/sw/isa/ifault_hold/gen_hex.py and
    sim/sw/intr/wfi_trap/gen_hex.py, against the instruction formats of the RISC-V Unprivileged
    ISA 20191213, section 2.3. A bitwise or of fields that do not overlap is written as a sum. */
module Assembler {

  import opened PowersOfTwo

  type Reg = r: nat | r < 32
  type Csr = c: nat | c < 4096

  // ------------------------------------------------------------ encoders

  function IType(imm: int, rs1: int, f3: int, rd: int, op: int): nat {
    imm % 4096 * 0x10_0000 + rs1 % 32 * 0x8000 + f3 % 8 * 0x1000 + rd % 32 * 0x80 + op % 128
  }

  function SType(imm: int, rs2: int, rs1: int, f3: int, op: int): nat {
    imm / 32 % 128 * 0x200_0000 + rs2 % 32 * 0x10_0000 + rs1 % 32 * 0x8000 + f3 % 8 * 0x1000
    + imm % 32 * 0x80 + op % 128
  }

  function BType(imm: int, rs2: int, rs1: int, f3: int, op: int): nat {
    imm / 4096 % 2 * 0x8000_0000 + imm / 32 % 64 * 0x200_0000 + rs2 % 32 * 0x10_0000 + rs1 % 32 * 0x8000
    + f3 % 8 * 0x1000 + imm / 2 % 16 * 0x100 + imm / 2048 % 2 * 0x80 + op % 128
  }

  function JType(imm: int, rd: int, op: int): nat {
    imm / 0x10_0000 % 2 * 0x8000_0000 + imm / 2 % 1024 * 0x20_0000 + imm / 2048 % 2 * 0x10_0000
    + imm / 4096 % 256 * 0x1000 + rd % 32 * 0x80 + op % 128
  }

  function RType(f7: int, rs2: int, rs1: int, f3: int, rd: int, op: int): nat {
    f7 % 128 * 0x200_0000 + rs2 % 32 * 0x10_0000 + rs1 % 32 * 0x8000 + f3 % 8 * 0x1000 + rd % 32 * 0x80 + op % 128
  }

  function Lui(rd: int, imm20: int): nat {
    imm20 % 0x10_0000 * 0x1000 + rd % 32 * 0x80 + 0x37
  }

  /** li is always two words, so that addresses do not move between the passes. */
  function LoadImmediate(rd: int, imm: int): (ws: seq<nat>)
    ensures |ws| == 2
  {
    var low := imm % 0x1_0000_0000;
    var hi := (low + 0x800) / 4096;
    var lo := low - hi % 0x10_0000 * 4096;
    [Lui(rd, hi), IType((lo + 0x800) % 4096 - 0x800, rd, 0, rd, 0x13)]
  }

  /** The compressed load of a small constant. */
  function CompressedLi(rd: Reg, imm: int): nat
    requires rd != 0 && -32 <= imm < 32
  {
    2 * 0x2000 + imm / 32 % 2 * 0x1000 + rd * 0x80 + imm % 32 * 4 + 1
  }

  // ------------------------------------------------------------ the decoder's view

  /** A 32-bit word cut where the R format cuts it; the other formats share these cuts. */
  datatype Cut = Cut(f7: nat, rs2: nat, rs1: nat, f3: nat, rd: nat, op: nat)
  {
    predicate Valid() { f7 < 128 && rs2 < 32 && rs1 < 32 && f3 < 8 && rd < 32 && op < 128 }
  }

  function CutOf(w: nat): Cut {
    Cut(w / 0x200_0000 % 128, w / 0x10_0000 % 32, w / 0x8000 % 32, w / 0x1000 % 8, w / 0x80 % 32, w % 128)
  }

  function Uncut(c: Cut): nat {
    c.f7 * 0x200_0000 + c.rs2 * 0x10_0000 + c.rs1 * 0x8000 + c.f3 * 0x1000 + c.rd * 0x80 + c.op
  }

  lemma CutUncut(c: Cut)
    requires c.Valid()
    ensures CutOf(Uncut(c)) == c
  {
    CutHigh(c);
    CutLow(c);
    hide Uncut;
  }

  lemma CutHigh(c: Cut)
    requires c.Valid()
    ensures var w := Uncut(c); w / 0x200_0000 % 128 == c.f7 && w / 0x10_0000 % 32 == c.rs2 && w / 0x8000 % 32 == c.rs1
  {
    var r2 := c.f3 * 0x1000 + c.rd * 0x80 + c.op;
    var w := Uncut(c);
    FieldOf(w, 0, 128, 0x200_0000, c.f7, c.rs2 * 0x10_0000 + c.rs1 * 0x8000 + r2);
    FieldOf(w, c.f7, 32, 0x10_0000, c.rs2, c.rs1 * 0x8000 + r2);
    FieldOf(w, c.f7 * 32 + c.rs2, 32, 0x8000, c.rs1, r2);
  }

  lemma CutLow(c: Cut)
    requires c.Valid()
    ensures var w := Uncut(c); w / 0x1000 % 8 == c.f3 && w / 0x80 % 32 == c.rd && w % 128 == c.op
  {
    var high := c.f7 * 0x400 + c.rs2 * 32 + c.rs1;
    var w := Uncut(c);
    FieldOf(w, high, 8, 0x1000, c.f3, c.rd * 0x80 + c.op);
    FieldOf(w, high * 8 + c.f3, 32, 0x80, c.rd, c.op);
    DivModUnique(w, 128, (high * 8 + c.f3) * 32 + c.rd, c.op);
  }

  /** The field v of the given width at the given place of a sum. */
  lemma FieldOf(w: int, high: int, width: nat, place: nat, v: nat, low: nat)
    requires v < width && low < place && w == (high * width + v) * place + low
    ensures w / place % width == v
  {
    DivModUnique(w, place, high * width + v, low);
    DivModUnique(high * width + v, width, high, v);
  }

  /** The signed value of an n-bit field, given 2^n. */
  function Signed(v: int, range: int): int
    requires range > 0
  {
    if v < range / 2 then v else v - range
  }

  datatype Decoded =
    | Upper(imm20: nat, rd: nat)
    | Immediate(imm: int, rs1: nat, f3: nat, rd: nat, op: nat)
    | Storing(imm: int, rs2: nat, rs1: nat, f3: nat)
    | Branch(off: int, rs2: nat, rs1: nat, f3: nat)
    | Jump(off: int, rd: nat)
    | Register(f7: nat, rs2: nat, rs1: nat, f3: nat, rd: nat)
    | Other

  function Decode(w: nat): Decoded {
    var c := CutOf(w);
    match c.op
    case 0x37 => Upper(c.f7 * 0x2000 + c.rs2 * 0x100 + c.rs1 * 8 + c.f3, c.rd)
    case 0x13 | 0x03 | 0x73 => Immediate(Signed(c.f7 * 32 + c.rs2, 4096), c.rs1, c.f3, c.rd, c.op)
    case 0x23 => Storing(Signed(c.f7 * 32 + c.rd, 4096), c.rs2, c.rs1, c.f3)
    case 0x63 =>
      Branch(Signed(c.f7 / 64 * 4096 + c.rd % 2 * 2048 + c.f7 % 64 * 32 + c.rd / 2 * 2, 8192), c.rs2, c.rs1, c.f3)
    case 0x6F =>
      Jump(Signed(c.f7 / 64 * 0x10_0000 + (c.rs1 * 8 + c.f3) * 4096 + c.rs2 % 2 * 2048
                  + (c.f7 % 64 * 16 + c.rs2 / 2) * 2, 0x20_0000), c.rd)
    case 0x33 => Register(c.f7, c.rs2, c.rs1, c.f3, c.rd)
    case _ => Other
  }

  lemma DecodeI(imm: int, rs1: Reg, f3: nat, rd: Reg, op: nat)
    requires f3 < 8 && op in {0x13, 0x03, 0x73}
    ensures Decode(IType(imm, rs1, f3, rd, op)) == Immediate(Signed(imm % 4096, 4096), rs1, f3, rd, op)
  {
    var v := imm % 4096;
    var c := Cut(v / 32, v % 32, rs1, f3, rd, op);
    assert IType(imm, rs1, f3, rd, op) == Uncut(c);
    CutUncut(c);
    hide CutOf;
  }

  lemma DecodeS(imm: int, rs2: Reg, rs1: Reg, f3: nat)
    requires f3 < 8
    ensures Decode(SType(imm, rs2, rs1, f3, 0x23)) == Storing(Signed(imm % 4096, 4096), rs2, rs1, f3)
  {
    var c := Cut(imm / 32 % 128, rs2, rs1, f3, imm % 32, 0x23);
    assert SType(imm, rs2, rs1, f3, 0x23) == Uncut(c);
    CutUncut(c);
    DivModUnique(imm, 4096, imm / 32 / 128, imm / 32 % 128 * 32 + imm % 32);
    hide CutOf, SType, Uncut;
  }

  /** The pieces a branch offset is cut into: bits 13 up, 12, 11, 10 to 5, 4 to 1, and 0. */
  lemma BranchPieces(imm: int) returns (k: int, b12: nat, b11: nat, m: nat, t: nat, b0: nat)
    ensures b12 < 2 && b11 < 2 && m < 64 && t < 16 && b0 == imm % 2
    ensures imm % 8192 == b12 * 4096 + b11 * 2048 + m * 32 + t * 2 + b0
    ensures imm / 4096 % 2 == b12 && imm / 2048 % 2 == b11 && imm / 32 % 64 == m && imm / 2 % 16 == t
  {
    var q1 := imm / 2;
    var q5 := q1 / 16;
    var q11 := q5 / 64;
    var q12 := q11 / 2;
    k, b12, b11, m, t, b0 := q12 / 2, q12 % 2, q11 % 2, q5 % 64, q1 % 16, imm % 2;
    FieldOf(imm, q5, 16, 2, t, b0);
    FieldOf(imm, q11, 64, 32, m, t * 2 + b0);
    FieldOf(imm, q12, 2, 2048, b11, m * 32 + t * 2 + b0);
    FieldOf(imm, k, 2, 4096, b12, b11 * 2048 + m * 32 + t * 2 + b0);
    DivModUnique(imm, 8192, k, b12 * 4096 + b11 * 2048 + m * 32 + t * 2 + b0);
  }

  lemma BranchIsCut(imm: int, rs2: Reg, rs1: Reg, f3: nat, b12: nat, b11: nat, m: nat, t: nat)
    requires f3 < 8
    requires imm / 4096 % 2 == b12 && imm / 2048 % 2 == b11 && imm / 32 % 64 == m && imm / 2 % 16 == t
    ensures BType(imm, rs2, rs1, f3, 0x63) == Uncut(Cut(b12 * 64 + m, rs2, rs1, f3, t * 2 + b11, 0x63))
  {
  }

  /** A branch loses bit 0 of its offset, and all bits above 12. */
  lemma DecodeB(imm: int, rs2: Reg, rs1: Reg, f3: nat)
    requires f3 < 8
    ensures Decode(BType(imm, rs2, rs1, f3, 0x63)) == Branch(Signed(imm % 8192 - imm % 2, 8192), rs2, rs1, f3)
  {
    var k, b12, b11, m, t, b0 := BranchPieces(imm);
    var c := Cut(b12 * 64 + m, rs2, rs1, f3, t * 2 + b11, 0x63);
    BranchIsCut(imm, rs2, rs1, f3, b12, b11, m, t);
    CutUncut(c);
    hide CutOf, BType, Uncut;
    DivModUnique(c.f7, 64, b12, m);
    DivModUnique(c.rd, 2, t, b11);
  }

  /** The pieces of a jump offset: bits 21 up, 20, 19 to 12, 11, 10 to 1, and 0. */
  lemma JumpPieces(imm: int) returns (k: int, b20: nat, n: nat, b11: nat, t: nat, b0: nat)
    ensures b20 < 2 && n < 256 && b11 < 2 && t < 1024 && b0 == imm % 2
    ensures imm % 0x20_0000 == b20 * 0x10_0000 + n * 4096 + b11 * 2048 + t * 2 + b0
    ensures imm / 0x10_0000 % 2 == b20 && imm / 4096 % 256 == n && imm / 2048 % 2 == b11 && imm / 2 % 1024 == t
  {
    var q1 := imm / 2;
    var q11 := q1 / 1024;
    var q12 := q11 / 2;
    var q20 := q12 / 256;
    k, b20, n, b11, t, b0 := q20 / 2, q20 % 2, q12 % 256, q11 % 2, q1 % 1024, imm % 2;
    FieldOf(imm, q11, 1024, 2, t, b0);
    FieldOf(imm, q12, 2, 2048, b11, t * 2 + b0);
    FieldOf(imm, q20, 256, 4096, n, b11 * 2048 + t * 2 + b0);
    FieldOf(imm, k, 2, 0x10_0000, b20, n * 4096 + b11 * 2048 + t * 2 + b0);
    DivModUnique(imm, 0x20_0000, k, b20 * 0x10_0000 + n * 4096 + b11 * 2048 + t * 2 + b0);
  }

  lemma JumpIsCut(imm: int, rd: Reg, b20: nat, n: nat, b11: nat, t: nat)
    requires imm / 0x10_0000 % 2 == b20 && imm / 4096 % 256 == n && imm / 2048 % 2 == b11 && imm / 2 % 1024 == t
    ensures JType(imm, rd, 0x6F) == Uncut(Cut(b20 * 64 + t / 16, t % 16 * 2 + b11, n / 8, n % 8, rd, 0x6F))
  {
  }

  lemma DecodeJ(imm: int, rd: Reg)
    ensures Decode(JType(imm, rd, 0x6F)) == Jump(Signed(imm % 0x20_0000 - imm % 2, 0x20_0000), rd)
  {
    var k, b20, n, b11, t, b0 := JumpPieces(imm);
    var c := Cut(b20 * 64 + t / 16, t % 16 * 2 + b11, n / 8, n % 8, rd, 0x6F);
    JumpIsCut(imm, rd, b20, n, b11, t);
    CutUncut(c);
    hide CutOf, JType, Uncut;
    DivModUnique(c.f7, 64, b20, t / 16);
    DivModUnique(c.rs2, 2, t % 16, b11);
  }

  lemma DecodeR(f7: nat, rs2: Reg, rs1: Reg, f3: nat, rd: Reg)
    requires f7 < 128 && f3 < 8
    ensures Decode(RType(f7, rs2, rs1, f3, rd, 0x33)) == Register(f7, rs2, rs1, f3, rd)
  {
    var c := Cut(f7, rs2, rs1, f3, rd, 0x33);
    assert RType(f7, rs2, rs1, f3, rd, 0x33) == Uncut(c);
    CutUncut(c);
    hide CutOf;
  }

  lemma DecodeU(imm20: nat, rd: Reg)
    ensures Decode(Lui(rd, imm20)) == Upper(imm20 % 0x10_0000, rd)
  {
    var v := imm20 % 0x10_0000;
    var c := Cut(v / 0x2000, v / 0x100 % 32, v / 8 % 32, v % 8, rd, 0x37);
    assert v == c.f7 * 0x2000 + c.rs2 * 0x100 + c.rs1 * 8 + c.f3 by {
      var q3 := v / 8;
      var q8 := q3 / 32;
      FieldOf(v, q8, 32, 8, q3 % 32, v % 8);
      FieldOf(v, q8 / 32, 32, 0x100, q8 % 32, q3 % 32 * 8 + v % 8);
      DivModUnique(v, 0x2000, q8 / 32, q8 % 32 * 0x100 + q3 % 32 * 8 + v % 8);
    }
    assert Lui(rd, imm20) == Uncut(c);
    CutUncut(c);
    hide CutOf, Lui, Uncut;
  }

  /** An immediate survives exactly when it is in range, and for jumps even. */
  lemma ImmediateKept(imm: int)
    ensures Signed(imm % 4096, 4096) == imm <==> -2048 <= imm < 2048
    ensures Signed(imm % 8192 - imm % 2, 8192) == imm <==> imm % 2 == 0 && -4096 <= imm < 4096
    ensures Signed(imm % 0x20_0000 - imm % 2, 0x20_0000) == imm <==> imm % 2 == 0 && -0x10_0000 <= imm < 0x10_0000
  {
  }

  /** What a lui and addi pair to the same register leave in it. */
  function Loaded(first: Decoded, second: Decoded): int
    requires first.Upper? && second.Immediate?
  {
    (first.imm20 * 4096 + second.imm) % 0x1_0000_0000
  }

  lemma LoadImmediateLoads(rd: Reg, imm: int)
    ensures var ws := LoadImmediate(rd, imm);
      var u, a := Decode(ws[0]), Decode(ws[1]);
      && u.Upper? && u.rd == rd
      && a.Immediate? && a.rs1 == a.rd == rd && a.f3 == 0 && a.op == 0x13
      && Loaded(u, a) == imm % 0x1_0000_0000
  {
    hide Decode, IType, Lui, Signed;
    var low := imm % 0x1_0000_0000;
    var hi := (low + 0x800) / 4096;
    var lo := low - hi % 0x10_0000 * 4096;
    var lo12 := (lo + 0x800) % 4096 - 0x800;
    DecodeU(hi, rd);
    DecodeI(lo12, rd, 0, rd, 0x13);
    ImmediateKept(lo12);
    SplitsAgain(low);
  }

  lemma SplitsAgain(low: nat)
    requires low < 0x1_0000_0000
    ensures var hi := (low + 0x800) / 4096;
      var lo := low - hi % 0x10_0000 * 4096;
      (hi % 0x10_0000 * 4096 + ((lo + 0x800) % 4096 - 0x800)) % 0x1_0000_0000 == low
  {
    var hi := (low + 0x800) / 4096;
    assert low + 0x800 == hi * 4096 + (low + 0x800) % 4096;
    if hi == 0x10_0000 {
    } else {
      assert hi < 0x10_0000;
    }
  }

  lemma CompressedLiLoads(rd: Reg, imm: int)
    requires rd != 0 && -32 <= imm < 32
    ensures var h := CompressedLi(rd, imm);
      && h < 0x1_0000 && h % 4 == 1 && h / 0x2000 == 2
      && h / 0x80 % 32 == rd && Signed(h / 0x1000 % 2 * 32 + h / 4 % 32, 64) == imm
  {
    var b, l := imm / 32 % 2, imm % 32;
    var h := CompressedLi(rd, imm);
    DivModUnique(imm, 64, imm / 32 / 2, b * 32 + l);
    FieldOf(h, 0, 8, 0x2000, 2, b * 0x1000 + rd * 0x80 + l * 4 + 1);
    FieldOf(h, 2, 2, 0x1000, b, rd * 0x80 + l * 4 + 1);
    FieldOf(h, 4 + b, 32, 0x80, rd, l * 4 + 1);
    FieldOf(h, (4 + b) * 32 + rd, 32, 4, l, 1);
    hide CompressedLi;
  }

  // ------------------------------------------------------------ programs

  datatype Operand = Value(v: int) | Label(name: string)

  datatype Instr =
    | Li(rd: Reg, src: Operand)
    | Addi(rd: Reg, rs1: Reg, imm: int)
    | Andi(rd: Reg, rs1: Reg, imm: int)
    | And(rd: Reg, rs1: Reg, rs2: Reg)
    | Div(rd: Reg, rs1: Reg, rs2: Reg)
    | Lw(rd: Reg, off: int, rs1: Reg)
    | Sw(rs2: Reg, off: int, rs1: Reg)
    | Bne(rs1: Reg, rs2: Reg, target: string)
    | J(target: string)
    | Jabs(addr: int)
    | Csrw(csr: Csr, rs1: Reg)
    | Csrs(csr: Csr, rs1: Reg)
    | Csrr(rd: Reg, csr: Csr)
    | Wfi
    | Mret
    | Word(w: nat)
    | Unknown(mnemonic: string)

  datatype Line = Line(name: string, instr: Instr)

  function Size(i: Instr): nat { if i.Li? then 2 else 1 }

  /** The words before line n. */
  function WordsBefore(prog: seq<Line>, n: nat): nat
    requires n <= |prog|
  {
    if n == 0 then 0 else WordsBefore(prog, n - 1) + Size(prog[n - 1].instr)
  }

  function Address(prog: seq<Line>, n: nat): nat
    requires n <= |prog|
  {
    4 * WordsBefore(prog, n)
  }

  /** Every name an instruction uses is defined, and it is an instruction. */
  predicate Resolvable(i: Instr, labels: map<string, nat>) {
    match i
    case Li(_, Label(name)) => name in labels
    case Bne(_, _, target) => target in labels
    case J(target) => target in labels
    case Unknown(_) => false
    case _ => true
  }

  function Encode(i: Instr, pc: nat, labels: map<string, nat>): (ws: seq<nat>)
    requires Resolvable(i, labels)
    ensures |ws| == Size(i)
  {
    match i
    case Li(rd, src) => LoadImmediate(rd, if src.Label? then labels[src.name] else src.v)
    case Addi(rd, rs1, imm) => [IType(imm, rs1, 0, rd, 0x13)]
    case Andi(rd, rs1, imm) => [IType(imm, rs1, 7, rd, 0x13)]
    case And(rd, rs1, rs2) => [RType(0, rs2, rs1, 7, rd, 0x33)]
    case Div(rd, rs1, rs2) => [RType(1, rs2, rs1, 4, rd, 0x33)]
    case Lw(rd, off, rs1) => [IType(off, rs1, 2, rd, 0x03)]
    case Sw(rs2, off, rs1) => [SType(off, rs2, rs1, 2, 0x23)]
    case Bne(rs1, rs2, target) => [BType(labels[target] - pc, rs2, rs1, 1, 0x63)]
    case J(target) => [JType(labels[target] - pc, 0, 0x6F)]
    case Jabs(addr) => [JType(addr - pc, 0, 0x6F)]
    case Csrw(csr, rs1) => [IType(csr, rs1, 1, 0, 0x73)]
    case Csrs(csr, rs1) => [IType(csr, rs1, 2, 0, 0x73)]
    case Csrr(rd, csr) => [IType(csr, 0, 2, rd, 0x73)]
    case Wfi => [0x10500073]
    case Mret => [0x30200073]
    case Word(w) => [w]
  }

  /** Where a branch or jump at pc with this offset goes. */
  function Goes(pc: nat, off: int): int { pc + off }

  predicate InReach(pc: nat, target: int, range: int)
    requires range > 0
  {
    (target - pc) % 2 == 0 && -range / 2 <= target - pc < range / 2
  }

  /** What the words at pc must do for the instruction to have been assembled. Immediates and
      targets are met exactly when they are within the reach of the format. */
  ghost predicate Means(i: Instr, pc: nat, labels: map<string, nat>, ws: seq<nat>)
    requires Resolvable(i, labels) && |ws| == Size(i)
  {
    var d := Decode(ws[0]);
    match i
    case Li(rd, src) =>
      var a := Decode(ws[1]);
      && d.Upper? && d.rd == rd && a.Immediate? && a.rs1 == a.rd == rd && a.f3 == 0 && a.op == 0x13
      && Loaded(d, a) == (if src.Label? then labels[src.name] else src.v) % 0x1_0000_0000
    case Addi(rd, rs1, imm) => SmallImmediate(d, imm, rs1, 0, rd, 0x13)
    case Andi(rd, rs1, imm) => SmallImmediate(d, imm, rs1, 7, rd, 0x13)
    case And(rd, rs1, rs2) => d == Register(0, rs2, rs1, 7, rd)
    case Div(rd, rs1, rs2) => d == Register(1, rs2, rs1, 4, rd)
    case Lw(rd, off, rs1) => SmallImmediate(d, off, rs1, 2, rd, 0x03)
    case Sw(rs2, off, rs1) =>
      d.Storing? && d.rs2 == rs2 && d.rs1 == rs1 && d.f3 == 2 && (d.imm == off <==> -2048 <= off < 2048)
    case Bne(rs1, rs2, target) =>
      d.Branch? && d.rs2 == rs2 && d.rs1 == rs1 && d.f3 == 1
      && (Goes(pc, d.off) == labels[target] <==> InReach(pc, labels[target], 8192))
    case J(target) =>
      d.Jump? && d.rd == 0 && (Goes(pc, d.off) == labels[target] <==> InReach(pc, labels[target], 0x20_0000))
    case Jabs(addr) =>
      d.Jump? && d.rd == 0 && (Goes(pc, d.off) == addr <==> InReach(pc, addr, 0x20_0000))
    case Csrw(csr, rs1) => CsrAccess(d, csr, rs1, 1, 0)
    case Csrs(csr, rs1) => CsrAccess(d, csr, rs1, 2, 0)
    case Csrr(rd, csr) => CsrAccess(d, csr, 0, 2, rd)
    case Wfi => CsrAccess(d, 0x105, 0, 0, 0)
    case Mret => CsrAccess(d, 0x302, 0, 0, 0)
    case Word(w) => ws[0] == w
  }

  predicate SmallImmediate(d: Decoded, imm: int, rs1: nat, f3: nat, rd: nat, op: nat) {
    && d.Immediate? && d.rs1 == rs1 && d.f3 == f3 && d.rd == rd && d.op == op
    && (d.imm == imm <==> -2048 <= imm < 2048)
  }

  /** A system instruction: its 12-bit field read as unsigned. */
  predicate CsrAccess(d: Decoded, csr: nat, rs1: nat, f3: nat, rd: nat) {
    d.Immediate? && d.op == 0x73 && d.rs1 == rs1 && d.f3 == f3 && d.rd == rd && d.imm % 4096 == csr
  }

  lemma EncodeMeans(i: Instr, pc: nat, labels: map<string, nat>)
    requires Resolvable(i, labels)
    ensures Means(i, pc, labels, Encode(i, pc, labels))
  {
    hide Decode, IType, SType, BType, JType, RType, LoadImmediate, Signed;
    match i
    case Li(rd, src) => LoadImmediateLoads(rd, if src.Label? then labels[src.name] else src.v);
    case Addi(rd, rs1, imm) => DecodeSmall(imm, rs1, 0, rd, 0x13);
    case Andi(rd, rs1, imm) => DecodeSmall(imm, rs1, 7, rd, 0x13);
    case And(rd, rs1, rs2) => DecodeR(0, rs2, rs1, 7, rd);
    case Div(rd, rs1, rs2) => DecodeR(1, rs2, rs1, 4, rd);
    case Lw(rd, off, rs1) => DecodeSmall(off, rs1, 2, rd, 0x03);
    case Sw(rs2, off, rs1) => DecodeS(off, rs2, rs1, 2); ImmediateKept(off);
    case Bne(rs1, rs2, target) => DecodeB(labels[target] - pc, rs2, rs1, 1); ImmediateKept(labels[target] - pc);
    case J(target) => DecodeJ(labels[target] - pc, 0); ImmediateKept(labels[target] - pc);
    case Jabs(addr) => DecodeJ(addr - pc, 0); ImmediateKept(addr - pc);
    case Csrw(csr, rs1) => DecodeCsr(csr, rs1, 1, 0);
    case Csrs(csr, rs1) => DecodeCsr(csr, rs1, 2, 0);
    case Csrr(rd, csr) => DecodeCsr(csr, 0, 2, rd);
    case Wfi => DecodeCsr(0x105, 0, 0, 0); SystemWords();
    case Mret => DecodeCsr(0x302, 0, 0, 0); SystemWords();
    case Word(w) =>
  }

  // Every mnemonic with some operands, and the word the RISC-V manual gives it.

  lemma KnownLoads(labels: map<string, nat>)
    ensures Encode(Lw(1, 4, 2), 0, labels) == [0x00412083]
    ensures Encode(Sw(3, 8, 2), 0, labels) == [0x00312423]
  {
    hide BType, JType, RType, Lui, LoadImmediate;
  }

  lemma KnownConstants(labels: map<string, nat>)
    ensures Encode(Li(5, Value(0x12345FFF)), 0, labels) == [0x123462B7, 0xFFF28293]
    ensures CompressedLi(10, 5) == 0x4515
  {
    hide BType, JType, RType, SType;
  }

  lemma KnownArithmetic(labels: map<string, nat>)
    ensures Encode(Addi(1, 2, -1), 0, labels) == [0xFFF10093]
    ensures Encode(Andi(5, 6, 7), 0, labels) == [0x00737293]
    ensures Encode(And(1, 2, 3), 0, labels) == [0x003170B3]
    ensures Encode(Div(1, 2, 3), 0, labels) == [0x023140B3]
  {
    hide BType, JType, SType, Lui, LoadImmediate;
  }

  lemma KnownJumps(labels: map<string, nat>)
    requires "l" in labels && labels["l"] == 0x108
    ensures Encode(Bne(1, 2, "l"), 0x100, labels) == [0x00209463]
    ensures Encode(J("l"), 0x10C, labels) == [0xFFDFF06F]
    ensures Encode(Jabs(0x1000), 0x800, labels) == [0x0010006F]
  {
    hide IType, SType, RType, Lui, LoadImmediate;
  }

  lemma KnownSystem(labels: map<string, nat>, w: nat)
    ensures Encode(Csrw(0x305, 1), 0, labels) == [0x30509073]
    ensures Encode(Csrs(0x304, 1), 0, labels) == [0x3040A073]
    ensures Encode(Csrr(1, 0x342), 0, labels) == [0x342020F3]
    ensures Encode(Wfi, 0, labels) == [0x10500073] && Encode(Mret, 0, labels) == [0x30200073]
    ensures Encode(Word(w), 0, labels) == [w]
  {
    hide BType, JType, RType, SType, Lui, LoadImmediate;
  }

  lemma SystemWords()
    ensures IType(0x105, 0, 0, 0, 0x73) == 0x10500073 && IType(0x302, 0, 0, 0, 0x73) == 0x30200073
  {
  }

  lemma DecodeSmall(imm: int, rs1: Reg, f3: nat, rd: Reg, op: nat)
    requires f3 < 8 && op in {0x13, 0x03, 0x73}
    ensures SmallImmediate(Decode(IType(imm, rs1, f3, rd, op)), imm, rs1, f3, rd, op)
  {
    hide Decode, IType;
    DecodeI(imm, rs1, f3, rd, op);
    ImmediateKept(imm);
  }

  lemma DecodeCsr(csr: Csr, rs1: Reg, f3: nat, rd: Reg)
    requires f3 < 8
    ensures CsrAccess(Decode(IType(csr, rs1, f3, rd, 0x73)), csr, rs1, f3, rd)
  {
    hide Decode, IType;
    DecodeI(csr, rs1, f3, rd, 0x73);
  }

  // ------------------------------------------------------------ the two passes

  /** The label table after the first n lines: the last definition of a name wins. */
  function LabelsOf(prog: seq<Line>, n: nat): map<string, nat>
    requires n <= |prog|
  {
    if n == 0 then map[]
    else if prog[n - 1].name == "" then LabelsOf(prog, n - 1)
    else LabelsOf(prog, n - 1)[prog[n - 1].name := Address(prog, n - 1)]
  }

  predicate UniqueLabels(prog: seq<Line>) {
    forall i, j :: 0 <= i < j < |prog| && prog[i].name != "" ==> prog[i].name != prog[j].name
  }

  /** Each name stands for the address of the last line that bears it. */
  lemma {:induction false} LabelIsAddress(prog: seq<Line>, n: nat, i: nat)
    requires i < n <= |prog| && prog[i].name != ""
    requires forall j :: i < j < n ==> prog[j].name != prog[i].name
    ensures prog[i].name in LabelsOf(prog, n) && LabelsOf(prog, n)[prog[i].name] == Address(prog, i)
  {
    if i < n - 1 {
      LabelIsAddress(prog, n - 1, i);
    }
  }

  /** Some line of the program bears the name. */
  ghost predicate Labels(prog: seq<Line>, n: nat, name: string)
    requires n <= |prog|
  {
    name != "" && exists j :: 0 <= j < n && prog[j].name == name
  }

  /** The label table defines exactly the names that lines bear. */
  lemma {:induction false} TableHoldsLabels(prog: seq<Line>, n: nat, name: string)
    requires n <= |prog|
    ensures name in LabelsOf(prog, n) <==> Labels(prog, n, name)
  {
    if n > 0 {
      TableHoldsLabels(prog, n - 1, name);
      assert prog[n - 1].name == name && name != "" ==> Labels(prog, n, name);
      assert Labels(prog, n, name) ==> Labels(prog, n - 1, name) || prog[n - 1].name == name;
    }
  }

  /** Line i of the program text can be assembled: it holds a known mnemonic, and every name that a li,
      bne or j on it uses is the label of some line. */
  ghost predicate WellFormed(prog: seq<Line>, i: nat)
    requires i < |prog|
  {
    var ins := prog[i].instr;
    && !ins.Unknown?
    && (ins.Li? && ins.src.Label? ==> Labels(prog, |prog|, ins.src.name))
    && (ins.Bne? ==> Labels(prog, |prog|, ins.target))
    && (ins.J? ==> Labels(prog, |prog|, ins.target))
  }

  lemma ResolvableIffWellFormed(prog: seq<Line>, i: nat)
    requires i < |prog|
    ensures Resolvable(prog[i].instr, LabelsOf(prog, |prog|)) <==> WellFormed(prog, i)
  {
    var ins := prog[i].instr;
    if ins.Li? && ins.src.Label? {
      TableHoldsLabels(prog, |prog|, ins.src.name);
    } else if ins.Bne? || ins.J? {
      TableHoldsLabels(prog, |prog|, ins.target);
    }
  }

  /** Line i came out at its first-pass address and does what it says. */
  ghost predicate Placed(prog: seq<Line>, i: nat, labels: map<string, nat>, words: seq<nat>)
    requires i < |prog|
  {
    var at, ins := WordsBefore(prog, i), prog[i].instr;
    && at + Size(ins) <= |words|
    && Resolvable(ins, labels)
    && Means(ins, Address(prog, i), labels, words[at..at + Size(ins)])
  }

  datatype Result = Ok(labels: map<string, nat>, words: seq<nat>) | Failed(line: nat)

  lemma PlacedStays(prog: seq<Line>, i: nat, labels: map<string, nat>, words: seq<nat>, more: seq<nat>)
    requires i < |prog| && Placed(prog, i, labels, words)
    ensures Placed(prog, i, labels, words + more)
  {
    hide Means;
    var at, ins := WordsBefore(prog, i), prog[i].instr;
    assert (words + more)[at..at + Size(ins)] == words[at..at + Size(ins)];
  }

  lemma PlacedNext(prog: seq<Line>, i: nat, labels: map<string, nat>, words: seq<nat>)
    requires i < |prog| && |words| == WordsBefore(prog, i) && Resolvable(prog[i].instr, labels)
    ensures Placed(prog, i, labels, words + Encode(prog[i].instr, Address(prog, i), labels))
  {
    hide Means, Encode;
    var ins := prog[i].instr;
    EncodeMeans(ins, Address(prog, i), labels);
    var out := Encode(ins, Address(prog, i), labels);
    assert (words + out)[|words|..|words| + Size(ins)] == out;
  }

  /** Size the program, then emit it. Both passes agree on every address, and the run fails on
      the first line that uses an undefined name or mnemonic, if there is one. */
  method Assemble(prog: seq<Line>) returns (r: Result)
    ensures r.Ok? <==> forall i: nat :: i < |prog| ==> WellFormed(prog, i)
    ensures r.Ok? ==>
      && r.labels == LabelsOf(prog, |prog|)
      && |r.words| == WordsBefore(prog, |prog|)
      && forall i :: 0 <= i < |prog| ==> Placed(prog, i, r.labels, r.words)
    ensures r.Failed? ==> r.line < |prog| && !WellFormed(prog, r.line)
    ensures r.Failed? ==> forall i: nat :: i < r.line ==> WellFormed(prog, i)
  {
    hide Means, Encode, Placed, Resolvable, WellFormed;
    var labels: map<string, nat>, pc := map[], 0;
    for i := 0 to |prog|
      invariant labels == LabelsOf(prog, i) && pc == Address(prog, i)
    {
      if prog[i].name != "" {
        labels := labels[prog[i].name := pc];
      }
      pc := pc + 4 * Size(prog[i].instr);
    }
    var words: seq<nat> := [];
    pc := 0;
    for i := 0 to |prog|
      invariant pc == 4 * |words| == Address(prog, i)
      invariant forall j :: 0 <= j < i ==> Placed(prog, j, labels, words)
      invariant forall j: nat :: j < i ==> WellFormed(prog, j)
    {
      ResolvableIffWellFormed(prog, i);
      if !Resolvable(prog[i].instr, labels) {
        return Failed(i);
      }
      var out := Encode(prog[i].instr, pc, labels);
      forall j | 0 <= j < i ensures Placed(prog, j, labels, words + out) {
        PlacedStays(prog, j, labels, words, out);
      }
      PlacedNext(prog, i, labels, words);
      words := words + out;
      pc := pc + 4 * |out|;
    }
    r := Ok(labels, words);
  }

  lemma BranchMeans(i: Instr, pc: nat, labels: map<string, nat>, ws: seq<nat>)
    requires i.Bne? && Resolvable(i, labels) && |ws| == 1 && Means(i, pc, labels, ws)
    ensures var d := Decode(ws[0]);
      d.Branch? && (Goes(pc, d.off) == labels[i.target] <==> InReach(pc, labels[i.target], 8192))
  {
    hide Decode, InReach;
  }

  lemma JumpMeans(i: Instr, pc: nat, labels: map<string, nat>, ws: seq<nat>)
    requires i.J? && Resolvable(i, labels) && |ws| == 1 && Means(i, pc, labels, ws)
    ensures var d := Decode(ws[0]);
      d.Jump? && (Goes(pc, d.off) == labels[i.target] <==> InReach(pc, labels[i.target], 0x20_0000))
  {
    hide Decode, InReach;
  }

  lemma AlignedReach(a: nat, b: nat, range: int)
    requires range in {8192, 0x20_0000}
    ensures InReach(4 * a, 4 * b, range) <==> -range / 2 <= 4 * b - 4 * a < range / 2
  {
  }

  lemma PlacedWord(prog: seq<Line>, i: nat, labels: map<string, nat>, words: seq<nat>)
    requires i < |prog| && Placed(prog, i, labels, words) && Size(prog[i].instr) == 1
    ensures Resolvable(prog[i].instr, labels) && WordsBefore(prog, i) < |words|
    ensures Means(prog[i].instr, Address(prog, i), labels, [words[WordsBefore(prog, i)]])
  {
    hide Means, Resolvable, WordsBefore;
    var at := WordsBefore(prog, i);
    assert words[at..at + 1] == [words[at]];
  }

  /** In an assembled program with unique labels, a branch goes to the line that bears its label
      exactly when that line is within reach. */
  lemma BranchReachesItsLine(prog: seq<Line>, labels: map<string, nat>, words: seq<nat>, i: nat, j: nat)
    requires i < |prog| && j < |prog| && UniqueLabels(prog) && labels == LabelsOf(prog, |prog|)
    requires Placed(prog, i, labels, words) && prog[j].name != ""
    requires prog[i].instr.Bne? && prog[i].instr.target == prog[j].name
    ensures WordsBefore(prog, i) < |words|
    ensures var pc, to, d := Address(prog, i), Address(prog, j), Decode(words[WordsBefore(prog, i)]);
      d.Branch? && (Goes(pc, d.off) == to <==> -4096 <= to - pc < 4096)
  {
    hide Decode, Means, Goes, LabelsOf, WordsBefore, Placed, InReach;
    LabelIsAddress(prog, |prog|, j);
    PlacedWord(prog, i, labels, words);
    BranchMeans(prog[i].instr, Address(prog, i), labels, [words[WordsBefore(prog, i)]]);
    AlignedReach(WordsBefore(prog, i), WordsBefore(prog, j), 8192);
  }

  lemma JumpReachesItsLine(prog: seq<Line>, labels: map<string, nat>, words: seq<nat>, i: nat, j: nat)
    requires i < |prog| && j < |prog| && UniqueLabels(prog) && labels == LabelsOf(prog, |prog|)
    requires Placed(prog, i, labels, words) && prog[j].name != ""
    requires prog[i].instr.J? && prog[i].instr.target == prog[j].name
    ensures WordsBefore(prog, i) < |words|
    ensures var pc, to, d := Address(prog, i), Address(prog, j), Decode(words[WordsBefore(prog, i)]);
      d.Jump? && (Goes(pc, d.off) == to <==> -0x10_0000 <= to - pc < 0x10_0000)
  {
    hide Decode, Means, Goes, LabelsOf, WordsBefore, Placed, InReach;
    LabelIsAddress(prog, |prog|, j);
    PlacedWord(prog, i, labels, words);
    JumpMeans(prog[i].instr, Address(prog, i), labels, [words[WordsBefore(prog, i)]]);
    AlignedReach(WordsBefore(prog, i), WordsBefore(prog, j), 0x20_0000);
  }
}
