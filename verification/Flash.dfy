/** The page-splitting writer of sim/sw/common/w25q.h against a NOR flash whose page program can
    only clear bits and wraps inside its 256-byte page. */
module Flash {

  import opened PowersOfTwo

  const PAGE_SIZE := 256
  /** A 24-bit address space. */
  const DEVICE_MAX := 0x100_0000

  /** The address as three bytes, highest first. */
  function AddressBytes(addr: nat): (int, int, int) {
    (addr / 0x1_0000 % 256, addr / 256 % 256, addr % 256)
  }

  function FromBytes(b: (int, int, int)): int { b.0 * 0x1_0000 + b.1 * 256 + b.2 }

  lemma AddressArrives(addr: nat)
    requires addr < DEVICE_MAX
    ensures FromBytes(AddressBytes(addr)) == addr
    ensures AddressBytes(0x12_3456) == (0x12, 0x34, 0x56)
  {
  }

  /** Where byte i of a page program lands: it wraps at the end of the page. */
  function Lands(addr: nat, i: nat): nat { addr / PAGE_SIZE * PAGE_SIZE + (addr + i) % PAGE_SIZE }

  /** Programming clears bits and never sets one. */
  function Anded(was: bv8, data: bv8): bv8 { was & data }

  /** A bit is set afterwards exactly if it was set and is set in the data. */
  lemma AndedBits(was: bv8, data: bv8, k: bv8)
    requires k < 8
    ensures (Anded(was, data) >> k) & 1 == 1 <==> (was >> k) & 1 == 1 && (data >> k) & 1 == 1
  {
  }

  /** What one program cycle leaves at a: the bytes of its page, from the address on and round the
      page's end, are ANDed with the data. */
  function CycleAfter(before: seq<bv8>, addr: nat, data: seq<bv8>, a: nat): bv8
    requires a < |before|
  {
    var i := (a - addr) % PAGE_SIZE;
    if a / PAGE_SIZE == addr / PAGE_SIZE && i < |data| then Anded(before[a], data[i]) else before[a]
  }

  ghost predicate Cycled(before: seq<bv8>, now: seq<bv8>, addr: nat, data: seq<bv8>) {
    |now| == |before| && forall a: nat :: a < |now| ==> now[a] == CycleAfter(before, addr, data, a)
  }

  /** Byte i, and no other, lands where its cycle looks it up. */
  lemma LandsOnce(addr: nat, i: nat, a: nat)
    requires i < PAGE_SIZE
    ensures a == Lands(addr, i) <==> a / PAGE_SIZE == addr / PAGE_SIZE && (a - addr) % PAGE_SIZE == i
    ensures Lands(addr, i) == addr / 256 * 256 + (addr + i) % 256
  {
    var p, o := addr / PAGE_SIZE, addr % PAGE_SIZE;
    if o + i < PAGE_SIZE {
      DivModUnique(addr + i, PAGE_SIZE, p, o + i);
    } else {
      DivModUnique(addr + i, PAGE_SIZE, p + 1, o + i - PAGE_SIZE);
    }
    if a / PAGE_SIZE == p {
      var b := a % PAGE_SIZE;
      assert a - addr == b - o;
      DivModUnique(a - addr, PAGE_SIZE, if b < o then -1 else 0, if b < o then b - o + PAGE_SIZE else b - o);
    }
  }

  lemma CycleNext(before: seq<bv8>, now: seq<bv8>, addr: nat, data: seq<bv8>, i: nat)
    requires i < |data| <= PAGE_SIZE && Lands(addr, i) < |before| && Cycled(before, now, addr, data[..i])
    ensures Cycled(before, now[Lands(addr, i) := Anded(now[Lands(addr, i)], data[i])], addr, data[..i + 1])
  {
    hide Anded, Lands;
    var at := Lands(addr, i);
    var next := now[at := Anded(now[at], data[i])];
    forall a: nat | a < |next| ensures next[a] == CycleAfter(before, addr, data[..i + 1], a) {
      LandsOnce(addr, i, a);
      LandsOnce(addr, i, at);
      assert now[a] == CycleAfter(before, addr, data[..i], a);
    }
  }

  /** A cycle that stays inside its page is the plain write of its range. */
  lemma CycleInPage(before: seq<bv8>, now: seq<bv8>, addr: nat, data: seq<bv8>)
    requires Cycled(before, now, addr, data) && addr % PAGE_SIZE + |data| <= PAGE_SIZE
    ensures Written(before, now, addr, data)
  {
    hide Anded;
    forall a: nat | a < |now| ensures now[a] == ByteAfter(before, addr, data, a) {
      assert now[a] == CycleAfter(before, addr, data, a);
      InsideStretch(addr, |data|, a);
    }
  }

  lemma InsideStretch(addr: nat, len: nat, a: nat)
    requires addr % PAGE_SIZE + len <= PAGE_SIZE
    ensures addr <= a < addr + len <==> a / PAGE_SIZE == addr / PAGE_SIZE && (a - addr) % PAGE_SIZE < len
    ensures addr <= a < addr + len ==> (a - addr) % PAGE_SIZE == a - addr
  {
    var p, o := addr / PAGE_SIZE, addr % PAGE_SIZE;
    if addr <= a < addr + len {
      DivModUnique(a, PAGE_SIZE, p, o + a - addr);
      DivModUnique(a - addr, PAGE_SIZE, 0, a - addr);
    } else if a / PAGE_SIZE == p {
      var b := a % PAGE_SIZE;
      DivModUnique(a - addr, PAGE_SIZE, if b < o then -1 else 0, if b < o then b - o + PAGE_SIZE else b - o);
    }
  }

  /** The program cycles of a write, one after the other: they meet end to end, none is empty and
      none leaves its page. */
  ghost predicate Tiles(cycles: seq<(nat, nat)>, from: nat, to: nat)
    decreases |cycles|
  {
    if cycles == [] then from == to
    else
      var last := cycles[|cycles| - 1];
      && last.1 > 0 && last.0 % PAGE_SIZE + last.1 <= PAGE_SIZE && last.0 + last.1 == to
      && Tiles(cycles[..|cycles| - 1], from, last.0)
  }

  lemma TilesNext(cycles: seq<(nat, nat)>, from: nat, at: nat, len: nat)
    requires Tiles(cycles, from, at) && len > 0 && at % PAGE_SIZE + len <= PAGE_SIZE
    ensures Tiles(cycles + [(at, len)], from, at + len)
  {
    assert (cycles + [(at, len)])[..|cycles|] == cycles;
  }

  /** Tiled cycles cover each address of the range exactly once, and no other. */
  lemma {:induction false} TilesCoverOnce(cycles: seq<(nat, nat)>, from: nat, to: nat, a: nat)
    requires Tiles(cycles, from, to)
    ensures from <= to && Hits(cycles, a) == if from <= a < to then 1 else 0
    decreases |cycles|
  {
    if cycles != [] {
      TilesCoverOnce(cycles[..|cycles| - 1], from, cycles[|cycles| - 1].0, a);
    }
  }

  /** How many cycles program the byte at a. */
  ghost function Hits(cycles: seq<(nat, nat)>, a: nat): nat
    decreases |cycles|
  {
    if cycles == [] then 0
    else
      var last := cycles[|cycles| - 1];
      Hits(cycles[..|cycles| - 1], a) + if last.0 <= a < last.0 + last.1 then 1 else 0
  }

  /** The simple specification: every byte of the range is ANDed with its data, once, and no
      other byte changes. */
  function ByteAfter(before: seq<bv8>, addr: nat, data: seq<bv8>, a: nat): bv8
    requires a < |before|
  {
    if addr <= a < addr + |data| then Anded(before[a], data[a - addr]) else before[a]
  }

  ghost predicate Written(before: seq<bv8>, now: seq<bv8>, addr: nat, data: seq<bv8>) {
    |now| == |before| && forall a: nat :: a < |now| ==> now[a] == ByteAfter(before, addr, data, a)
  }

  /** The bits of the data that are clear in the flash already. */
  function MustSet(was: bv8, data: bv8): bv8 { data & !was }

  lemma AndedIffNoneToSet(was: bv8, data: bv8)
    ensures Anded(was, data) == data <==> MustSet(was, data) == 0
  {
  }

  /** The data reads back exactly when no bit of it had to be set. */
  lemma ReadsBackIffNoBitSet(before: seq<bv8>, now: seq<bv8>, addr: nat, data: seq<bv8>)
    requires addr + |data| <= |before| && Written(before, now, addr, data)
    ensures now[addr..addr + |data|] == data
            <==> forall a: nat :: addr <= a < addr + |data| ==> MustSet(before[a], data[a - addr]) == 0
  {
    hide Anded, MustSet;
    var read := now[addr..addr + |data|];
    forall a: nat | addr <= a < addr + |data|
      ensures read[a - addr] == data[a - addr] <==> MustSet(before[a], data[a - addr]) == 0
    {
      assert now[a] == ByteAfter(before, addr, data, a);
      AndedIffNoneToSet(before[a], data[a - addr]);
    }
    if read == data {
      forall a: nat | addr <= a < addr + |data| ensures MustSet(before[a], data[a - addr]) == 0 {
        assert read[a - addr] == data[a - addr];
      }
    }
    if forall a: nat :: addr <= a < addr + |data| ==> MustSet(before[a], data[a - addr]) == 0 {
      forall i: nat | i < |data| ensures read[i] == data[i] {
        assert MustSet(before[addr + i], data[addr + i - addr]) == 0;
      }
    }
  }

  lemma ErasedReadsBack(data: bv8)
    ensures Anded(0xFF, data) == data
  {
  }

  /** A second stretch right behind the first. */
  lemma WrittenTwice(before: seq<bv8>, mid: seq<bv8>, now: seq<bv8>, addr: nat, first: seq<bv8>, second: seq<bv8>)
    requires Written(before, mid, addr, first) && Written(mid, now, addr + |first|, second)
    ensures Written(before, now, addr, first + second)
  {
    hide Anded;
    forall a: nat | a < |now| ensures now[a] == ByteAfter(before, addr, first + second, a) {
      assert mid[a] == ByteAfter(before, addr, first, a);
    }
  }

  class NorFlash {
    const mem: array<bv8>
    /** The write-enable latch, and whether a program cycle is under way. */
    var wel: bool
    var busy: bool
    /** Start and length of every program cycle so far. */
    ghost var cycles: seq<(nat, nat)>

    constructor (pages: nat)
      ensures fresh(mem) && mem.Length == PAGE_SIZE * pages && !busy && !wel && cycles == []
    {
      mem := new bv8[PAGE_SIZE * pages];
      wel, busy, cycles := false, false, [];
    }

    ghost predicate Valid() { mem.Length % PAGE_SIZE == 0 && mem.Length <= DEVICE_MAX }

    method WriteEnable()
      modifies this`wel
      ensures wel == (old(wel) || !busy)
    {
      if !busy {
        wel := true;
      }
    }

    /** The PAGE PROGRAM command: ignored while busy or without the latch, which it drops. Past
        the end of the page it goes on at the page's start. */
    method PageProgram(address: (int, int, int), data: seq<bv8>)
      requires Valid() && |data| <= PAGE_SIZE && 0 <= FromBytes(address) < mem.Length
      modifies this, mem
      ensures old(wel) && !old(busy) ==> busy && !wel && cycles == old(cycles) + [(FromBytes(address), |data|)]
      ensures old(wel) && !old(busy) ==> Cycled(old(mem[..]), mem[..], FromBytes(address), data)
      ensures !old(wel) || old(busy) ==> mem[..] == old(mem[..]) && cycles == old(cycles) && busy == old(busy)
    {
      hide Anded, Cycled, FromBytes;
      if busy || !wel {
        return;
      }
      var addr := FromBytes(address);
      var i := 0;
      NothingCycled(mem[..], addr);
      assert data[..0] == [];
      while i < |data|
        invariant i <= |data| && Cycled(old(mem[..]), mem[..], addr, data[..i]) && cycles == old(cycles)
      {
        var at := Lands(addr, i);
        StaysInPage(addr, i, mem.Length);
        CycleNext(old(mem[..]), mem[..], addr, data, i);
        mem[at] := Anded(mem[at], data[i]);
        i := i + 1;
      }
      assert data[..i] == data;
      wel, busy, cycles := false, true, cycles + [(addr, |data|)];
    }

    /** Poll until the program cycle is over; patience is what the chip still needs. */
    method WaitReady(patience: nat)
      modifies this`busy
      ensures !busy
    {
      var left := patience;
      while busy
        decreases left, busy
      {
        if left == 0 {
          busy := false;
        } else {
          left := left - 1;
        }
      }
    }

    /** Program a range, split at page boundaries. */
    method Write(addr: nat, buf: seq<bv8>)
      requires Valid() && !busy && addr + |buf| <= mem.Length
      modifies this, mem
      ensures !busy && Written(old(mem[..]), mem[..], addr, buf)
      ensures exists news :: cycles == old(cycles) + news && Tiles(news, addr, addr + |buf|)
    {
      hide Written, Cycled, FromBytes, AddressBytes, Tiles;
      var at, rest := addr, buf;
      ghost var done: seq<bv8>, news: seq<(nat, nat)> := [], [];
      NoTiles(addr);
      NothingWritten(mem[..], addr);
      while rest != []
        invariant !busy && done + rest == buf && at == addr + |done|
        invariant Written(old(mem[..]), mem[..], addr, done)
        invariant cycles == old(cycles) + news && Tiles(news, addr, at)
        decreases |rest|
      {
        var offset := at % PAGE_SIZE;
        var chunk := PAGE_SIZE - offset;
        if chunk > |rest| {
          chunk := |rest|;
        }
        ghost var mid := mem[..];
        AddressArrives(at);
        WriteEnable();
        PageProgram(AddressBytes(at), rest[..chunk]);
        var patience: nat :| patience >= 0;
        WaitReady(patience);
        CycleInPage(mid, mem[..], at, rest[..chunk]);
        WrittenTwice(old(mem[..]), mid, mem[..], addr, done, rest[..chunk]);
        TilesNext(news, addr, at, chunk);
        news := news + [(at, chunk)];
        assert done + rest[..chunk] + rest[chunk..] == buf;
        done := done + rest[..chunk];
        at := at + chunk;
        rest := rest[chunk..];
      }
      assert done == buf;
    }
  }

  lemma NothingWritten(mem: seq<bv8>, addr: nat)
    ensures Written(mem, mem, addr, [])
  {
  }

  lemma NothingCycled(mem: seq<bv8>, addr: nat)
    ensures Cycled(mem, mem, addr, [])
  {
  }

  lemma NoTiles(addr: nat)
    ensures Tiles([], addr, addr)
  {
  }

  lemma StaysInPage(addr: nat, i: nat, size: nat)
    requires addr < size && size % PAGE_SIZE == 0
    ensures Lands(addr, i) < size
  {
  }
}
