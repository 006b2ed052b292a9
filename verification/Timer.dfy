/** The 64-bit timer driver of sim/sw/common/timer.h: a counter that keeps ticking, reachable
    only one 32-bit word at a time. */
module Timer {

  const WORD := 0x1_0000_0000
  const LIMIT := 0x1_0000_0000_0000_0000
  const TOP := 0xFFFF_FFFF
  /** What the compare register holds at least, while its upper word is all ones. */
  const PARKED := 0xFFFF_FFFF_0000_0000
  const CYCLES_PER_US := 50

  type Word = w: nat | w < WORD

  function Hi(v: nat): (w: Word)
    requires v < LIMIT
  {
    v / WORD
  }

  function Lo(v: nat): Word { v % WORD }

  function Join(hi: Word, lo: Word): (v: nat)
    ensures v < LIMIT && Hi(v) == hi && Lo(v) == lo
  {
    hi * WORD + lo
  }

  lemma SplitJoin(v: nat)
    requires v < LIMIT
    ensures Join(Hi(v), Lo(v)) == v
  {
  }

  // ------------------------------------------------------------ reading

  /** What the driver returns, from the counter's values at its three or four reads. */
  function Taken(t1: nat, t2: nat, t3: nat, t4: nat): nat
    requires t1 <= t2 <= t3 <= t4 < LIMIT
  {
    if Hi(t1) == Hi(t3) then Join(Hi(t1), Lo(t2)) else Join(Hi(t3), Lo(t4))
  }

  /** However many ticks fall between the reads, the result is a value the counter passed
      through between the first read and the last. */
  lemma TakenWasHeld(t1: nat, t2: nat, t3: nat, t4: nat)
    requires t1 <= t2 <= t3 <= t4 < LIMIT
    ensures t1 <= Taken(t1, t2, t3, t4) <= t4
    ensures Hi(t1) == Hi(t3) ==> Taken(t1, t2, t3, t4) == t2
    ensures Hi(t1) != Hi(t3) ==> (Taken(t1, t2, t3, t4) == t4 <==> Hi(t3) == Hi(t4))
  {
    SplitJoin(t2);
    SplitJoin(t4);
  }

  /** Without the second read of the upper word the pair can be torn: it is a value of the
      counter between the two reads exactly when that word did not change. */
  lemma TwoReadsTear(t1: nat, t2: nat)
    requires t1 <= t2 < LIMIT
    ensures t1 <= Join(Hi(t1), Lo(t2)) <= t2 <==> Hi(t1) == Hi(t2) || Lo(t1) <= Lo(t2)
    ensures Join(Hi(t1), Lo(t2)) == t2 <==> Hi(t1) == Hi(t2)
  {
    SplitJoin(t1);
    SplitJoin(t2);
  }

  // ------------------------------------------------------------ arming

  /** The compare register after each of the three writes. */
  function ArmSteps(before: nat, target: nat): (s: (nat, nat, nat))
    requires before < LIMIT && target < LIMIT
    ensures s.0 < LIMIT && s.1 < LIMIT && s.2 < LIMIT
  {
    var first := Join(TOP, Lo(before));
    var second := Join(TOP, Lo(target));
    (first, second, Join(Hi(target), Lo(second)))
  }

  lemma ArmStepsAreSafe(before: nat, target: nat)
    requires before < LIMIT && target < LIMIT
    ensures var s := ArmSteps(before, target); s.0 >= PARKED && s.1 >= PARKED && s.2 == target
  {
    SplitJoin(target);
  }

  /** Writing the lower word first would not do. With both the old and the new compare value
      ahead of the counter, the value in between is already behind it exactly when the old one
      shares the counter's upper word and the new lower word is not above the counter's. */
  lemma LowFirstMisfires(now: nat, before: nat, target: nat)
    requires now < before < LIMIT && now < target < LIMIT
    ensures Join(Hi(before), Lo(target)) <= now <==> Hi(before) == Hi(now) && Lo(target) <= Lo(now)
  {
    SplitJoin(now);
    SplitJoin(before);
  }

  // ------------------------------------------------------------ the program

  class Clint {
    var mtime: nat
    var mtimecmp: nat
    /** Whether the interrupt has been pending at any moment since `Watch`. */
    ghost var fired: bool

    constructor ()
      ensures Valid() && mtime == 0 && mtimecmp == LIMIT - 1
    {
      mtime, mtimecmp, fired := 0, LIMIT - 1, false;
    }

    ghost predicate Valid()
      reads this
    {
      mtime < LIMIT && mtimecmp < LIMIT
    }

    predicate Pending()
      reads this
    {
      mtime >= mtimecmp
    }

    /** Any number of ticks pass; the counter does not run past 64 bits. */
    method Elapse()
      requires Valid()
      modifies this`mtime, this`fired
      ensures Valid() && mtime >= old(mtime)
      ensures fired == (old(fired) || Pending())
    {
      var later :| mtime <= later < LIMIT;
      mtime := later;
      fired := fired || Pending();
    }

    ghost method Watch()
      modifies this`fired
      ensures !fired
    {
      fired := false;
    }

    method ReadLo() returns (w: Word)
      requires Valid()
      modifies this`mtime, this`fired
      ensures Valid() && mtime >= old(mtime) && w == Lo(mtime)
      ensures fired == (old(fired) || Pending())
    {
      Elapse();
      w := Lo(mtime);
    }

    method ReadHi() returns (w: Word)
      requires Valid()
      modifies this`mtime, this`fired
      ensures Valid() && mtime >= old(mtime) && w == Hi(mtime)
      ensures fired == (old(fired) || Pending())
    {
      Elapse();
      w := Hi(mtime);
    }

    method WriteCmpHi(w: Word)
      requires Valid()
      modifies this
      ensures Valid() && mtime >= old(mtime) && mtimecmp == Join(w, Lo(old(mtimecmp)))
      ensures fired ==> old(fired) || mtime >= old(mtimecmp) || Pending()
    {
      Elapse();
      mtimecmp := Join(w, Lo(mtimecmp));
      fired := fired || Pending();
    }

    method WriteCmpLo(w: Word)
      requires Valid()
      modifies this
      ensures Valid() && mtime >= old(mtime) && mtimecmp == Join(Hi(old(mtimecmp)), w)
      ensures fired ==> old(fired) || mtime >= old(mtimecmp) || Pending()
    {
      Elapse();
      mtimecmp := Join(Hi(mtimecmp), w);
      fired := fired || Pending();
    }

    /** A reading of the 64-bit counter, correct under any interleaving with its ticks. */
    method TimerMtime() returns (v: nat)
      requires Valid()
      modifies this`mtime, this`fired
      ensures Valid() && old(mtime) <= v <= mtime
    {
      var hi := ReadHi();
      ghost var t1 := mtime;
      var lo := ReadLo();
      ghost var t2 := mtime;
      var hi2 := ReadHi();
      ghost var t3 := mtime;
      if hi != hi2 {
        hi := hi2;
        lo := ReadLo();
      }
      TakenWasHeld(t1, t2, t3, mtime);
      v := Join(hi, lo);
    }

    /** Arm the compare register. From the first write on, the interrupt can have been pending
        only when the target had been reached, or when the counter is in its last 2^32 values. */
    method TimerArmUs(deltaUs: Word) returns (ghost start: nat)
      requires Valid()
      modifies this
      ensures Valid() && old(mtime) <= start <= mtime
      ensures mtimecmp == (start + deltaUs * 50) % 0x1_0000_0000_0000_0000
      ensures fired ==> mtime >= mtimecmp || mtime >= PARKED
    {
      hide Hi, Lo, Join;
      var now := TimerMtime();
      start := now;
      var target := (now + deltaUs * CYCLES_PER_US) % LIMIT;
      ArmStepsAreSafe(mtimecmp, target);
      WriteCmpHi(TOP);
      Watch();
      fired := Pending();
      WriteCmpLo(Lo(target));
      WriteCmpHi(Hi(target));
    }

    method TimerCancel()
      requires Valid()
      modifies this
      ensures Valid() && mtimecmp == 0xFFFF_FFFF_FFFF_FFFF
      ensures fired ==> mtime >= PARKED
    {
      WriteCmpHi(TOP);
      Watch();
      fired := Pending();
      WriteCmpLo(TOP);
      WriteCmpHi(TOP);
    }
  }
}
