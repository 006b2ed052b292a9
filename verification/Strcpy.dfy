/** The word-at-a-time strcpy of sim/sw/dhrystone/dhry_portme.c, on a byte-addressed memory in
    which a word access must be aligned. */
module Strcpy {

  // ------------------------------------------------------------ the bit trick

  /** Non-zero if w contains a zero byte. */
  function HasZeroByte(w: bv32): bv32 {
    (w - 0x01010101) & !w & 0x80808080
  }

  /** The four bytes of a word, lowest address first. */
  datatype Bytes = Bytes(b0: bv8, b1: bv8, b2: bv8, b3: bv8)
  {
    predicate SomeZero() { b0 == 0 || b1 == 0 || b2 == 0 || b3 == 0 }
  }

  function Pack(b: Bytes): bv32 {
    b.b0 as bv32 | (b.b1 as bv32 << 8) | (b.b2 as bv32 << 16) | (b.b3 as bv32 << 24)
  }

  function Unpack(w: bv32): Bytes {
    Bytes((w & 0xFF) as bv8, ((w >> 8) & 0xFF) as bv8, ((w >> 16) & 0xFF) as bv8, ((w >> 24) & 0xFF) as bv8)
  }

  lemma UnpackPack(b: Bytes)
    ensures Unpack(Pack(b)) == b
    ensures Pack(Bytes(1, 2, 3, 4)) == 0x0403_0201
  {
  }

  /** Exact in both directions: no word without a zero byte is flagged, whatever borrows run
      through it. */
  lemma ZeroByteDetected(b: Bytes)
    ensures HasZeroByte(Pack(b)) != 0 <==> b.SomeZero()
  {
  }

  // ------------------------------------------------------------ the copy

  /** The string at src is n bytes long, not counting its terminator. */
  ghost predicate StringAt(mem: seq<bv8>, src: nat, n: nat) {
    src + n < |mem| && mem[src + n] == 0 && forall a :: src <= a < src + n ==> mem[a] != 0
  }

  /** What the byte at a is once k bytes have been copied from src to dst. */
  function ByteAfter(before: seq<bv8>, dst: nat, src: nat, k: nat, a: nat): bv8
    requires src + k <= |before| && a < |before|
  {
    if dst <= a < dst + k then before[src + a - dst] else before[a]
  }

  /** `now` is `before` with k bytes copied from src to dst and nothing else touched. */
  ghost predicate Copied(before: seq<bv8>, now: seq<bv8>, dst: nat, src: nat, k: nat) {
    && |now| == |before| && src + k <= |before| && dst + k <= |before|
    && forall a: nat :: a < |now| ==> now[a] == ByteAfter(before, dst, src, k, a)
  }

  predicate Disjoint(dst: nat, src: nat, n: nat) { dst + n < src || src + n < dst }

  /** The k-th byte goes on, from an unharmed source. */
  lemma CopyOne(before: seq<bv8>, now: seq<bv8>, dst: nat, src: nat, n: nat, k: nat)
    requires StringAt(before, src, n) && Disjoint(dst, src, n) && dst + n < |before| && k <= n
    requires Copied(before, now, dst, src, k)
    ensures now[src + k] == before[src + k]
    ensures now[src + k] == 0 <==> k == n
    ensures Copied(before, now[dst + k := now[src + k]], dst, src, k + 1)
  {
  }

  class Memory {
    const mem: array<bv8>

    constructor (size: nat)
      ensures fresh(mem) && mem.Length == 4 * size
    {
      mem := new bv8[4 * size];
    }

    ghost predicate Valid() { mem.Length % 4 == 0 }

    /** An aligned word load; the machine traps on any other. */
    method LoadWord(a: nat) returns (w: bv32)
      requires Valid() && a % 4 == 0 && a < mem.Length
      ensures w == Pack(Bytes(mem[a], mem[a + 1], mem[a + 2], mem[a + 3]))
    {
      w := Pack(Bytes(mem[a], mem[a + 1], mem[a + 2], mem[a + 3]));
    }

    method StoreWord(a: nat, w: bv32)
      requires Valid() && a % 4 == 0 && a < mem.Length
      modifies mem
      ensures var b := Unpack(w);
        mem[..] == old(mem[..])[a := b.b0][a + 1 := b.b1][a + 2 := b.b2][a + 3 := b.b3]
    {
      hide Unpack;
      var b := Unpack(w);
      mem[a], mem[a + 1], mem[a + 2], mem[a + 3] := b.b0, b.b1, b.b2, b.b3;
    }

    /** Copy the string at src, terminator included, to dst: exactly those bytes change, and
        every word access is aligned. */
    method Strcpy(dst: nat, src: nat, ghost n: nat) returns (r: nat)
      requires Valid() && StringAt(mem[..], src, n) && dst + n < mem.Length && Disjoint(dst, src, n)
      modifies mem
      ensures r == dst
      ensures Copied(old(mem[..]), mem[..], dst, src, n + 1)
    {
      hide StringAt, Copied;
      ghost var before := mem[..];
      var d, s := dst, src;
      ghost var k: nat := 0;
      NothingCopied(before, dst, src, n);
      if d % 4 == s % 4 {
        var done;
        done, d, s, k := CopyHead(before, dst, src, n);
        if done {
          return dst;
        }
        d, s, k := CopyWords(d, s, before, dst, src, n, k);
      }
      while true
        invariant s == src + k && d == dst + k
        invariant k <= n && Copied(before, mem[..], dst, src, k)
        decreases n - k
      {
        var stop := CopyByte(d, s, before, dst, src, n, k);
        d, s, k := d + 1, s + 1, k + 1;
        if stop {
          return dst;
        }
      }
    }

    /** Copy bytes up to the first word boundary of the source, or to the end of the string. */
    method CopyHead(ghost before: seq<bv8>, dst: nat, src: nat, ghost n: nat)
      returns (done: bool, d: nat, s: nat, ghost k: nat)
      requires StringAt(before, src, n) && Disjoint(dst, src, n) && dst + n < |before|
      requires before == mem[..] && dst % 4 == src % 4
      modifies mem
      ensures done ==> Copied(before, mem[..], dst, src, n + 1)
      ensures !done ==> k <= n && Copied(before, mem[..], dst, src, k)
      ensures s == src + k && d == dst + k && (!done ==> d % 4 == s % 4 == 0)
    {
      hide StringAt, Copied;
      NothingCopied(before, dst, src, n);
      d, s, k := dst, src, 0;
      while s % 4 != 0
        invariant s == src + k && d == dst + k
        invariant k <= n && Copied(before, mem[..], dst, src, k)
        decreases n - k
      {
        var stop := CopyByte(d, s, before, dst, src, n, k);
        d, s, k := d + 1, s + 1, k + 1;
        if stop {
          return true, d, s, k;
        }
      }
      SamePhase(dst, src, k);
      done := false;
    }

    /** Copy words until the one that holds the terminator. */
    method CopyWords(d0: nat, s0: nat, ghost before: seq<bv8>, ghost dst: nat, ghost src: nat, ghost n: nat,
                     ghost k0: nat)
      returns (d: nat, s: nat, ghost k: nat)
      requires Valid() && StringAt(before, src, n) && Disjoint(dst, src, n) && dst + n < |before| && k0 <= n
      requires Copied(before, mem[..], dst, src, k0) && d0 == dst + k0 && s0 == src + k0 && d0 % 4 == s0 % 4 == 0
      modifies mem
      ensures k <= n && Copied(before, mem[..], dst, src, k) && s == src + k && d == dst + k
    {
      hide StringAt, Copied, Disjoint;
      d, s, k := d0, s0, k0;
      while true
        invariant s == src + k && d == dst + k && d % 4 == s % 4 == 0
        invariant k <= n && Copied(before, mem[..], dst, src, k)
        decreases n - k
      {
        var stop := CopyWord(d, s, before, dst, src, n, k);
        if stop {
          break;
        }
        d, s, k := d + 4, s + 4, k + 4;
      }
    }

    /** Copy a word, unless the terminator is in it. */
    method CopyWord(d: nat, s: nat, ghost before: seq<bv8>, ghost dst: nat, ghost src: nat, ghost n: nat, ghost k: nat)
      returns (stop: bool)
      requires Valid() && StringAt(before, src, n) && Disjoint(dst, src, n) && dst + n < |before| && k <= n
      requires Copied(before, mem[..], dst, src, k) && d == dst + k && s == src + k && d % 4 == s % 4 == 0
      modifies mem
      ensures stop ==> mem[..] == old(mem[..])
      ensures !stop ==> k + 4 <= n && Copied(before, mem[..], dst, src, k + 4)
    {
      hide StringAt, Pack, HasZeroByte, Unpack, Bytes.SomeZero, Disjoint;
      InsideMemory(before, src, n);
      SameSize(before, mem[..], dst, src, k);
      var w := LoadWord(s);
      ghost var b := Bytes(mem[s], mem[s + 1], mem[s + 2], mem[s + 3]);
      ZeroByteDetected(b);
      UnpackPack(b);
      stop := HasZeroByte(w) != 0;
      if !stop {
        CopyFour(before, mem[..], dst, src, n, k);
        hide Copied;
        StoreWord(d, w);
      }
    }

    /** *d = *s, and whether that was the terminator. */
    method CopyByte(d: nat, s: nat, ghost before: seq<bv8>, ghost dst: nat, ghost src: nat, ghost n: nat, ghost k: nat)
      returns (stop: bool)
      requires StringAt(before, src, n) && Disjoint(dst, src, n) && dst + n < |before| && k <= n
      requires Copied(before, mem[..], dst, src, k) && d == dst + k && s == src + k
      modifies mem
      ensures Copied(before, mem[..], dst, src, k + 1) && (stop <==> k == n)
    {
      CopyOne(before, mem[..], dst, src, n, k);
      mem[d] := mem[s];
      stop := mem[d] == 0;
    }
  }

  lemma SamePhase(dst: nat, src: nat, k: nat)
    requires dst % 4 == src % 4
    ensures (dst + k) % 4 == (src + k) % 4
  {
  }

  lemma NothingCopied(before: seq<bv8>, dst: nat, src: nat, n: nat)
    requires StringAt(before, src, n) && dst + n < |before|
    ensures Copied(before, before, dst, src, 0)
  {
  }

  lemma SameSize(before: seq<bv8>, now: seq<bv8>, dst: nat, src: nat, k: nat)
    requires Copied(before, now, dst, src, k)
    ensures |now| == |before|
  {
  }

  lemma InsideMemory(before: seq<bv8>, src: nat, n: nat)
    requires StringAt(before, src, n)
    ensures src + n < |before|
  {
  }

  /** A word without a zero byte lies wholly inside the string. */
  lemma CopyFour(before: seq<bv8>, now: seq<bv8>, dst: nat, src: nat, n: nat, k: nat)
    requires StringAt(before, src, n) && Disjoint(dst, src, n) && dst + n < |before| && k <= n
    requires Copied(before, now, dst, src, k) && src + k + 3 < |now| && dst + k + 3 < |now|
    requires !Bytes(now[src + k], now[src + k + 1], now[src + k + 2], now[src + k + 3]).SomeZero()
    ensures k + 4 <= n
    ensures var a, b := src + k, dst + k;
      Copied(before, now[b := now[a]][b + 1 := now[a + 1]][b + 2 := now[a + 2]][b + 3 := now[a + 3]], dst, src, k + 4)
  {
    var a, b := src + k, dst + k;
    hide StringAt, Copied;
    CopyOne(before, now, dst, src, n, k);
    var m1 := now[b := now[a]];
    CopyOne(before, m1, dst, src, n, k + 1);
    var m2 := m1[b + 1 := now[a + 1]];
    CopyOne(before, m2, dst, src, n, k + 2);
    var m3 := m2[b + 2 := now[a + 2]];
    CopyOne(before, m3, dst, src, n, k + 3);
  }
}
