/** The two-buffer driver of sim/sw/common/fft.h against an engine of arbitrary latency: the
    program sees one buffer, the engine works in the other, and START and SWAP trade them. */
module FftDriver {

  import opened PowersOfTwo
  import opened FftSchedule
  import opened FixedPoint

  const SPIN_LIMIT := 2000000

  type Frame = seq<C16>

  type Short = s: int | IsInt16(s)

  /** The halfword a store keeps, read back as signed. */
  function Narrow(v: int): (s: Short)
    ensures IsInt16(v) ==> s == v
    ensures (v - s) % 0x1_0000 == 0
  {
    (v + 0x8000) % 0x1_0000 - 0x8000
  }

  function Sample(re: int, im: int): C16 { C16(Narrow(re), Narrow(im)) }

  /** The first `count` real parts have been copied out, if they are wanted. */
  ghost predicate HoldsReals(re: array?<Short>, f: Frame, count: nat)
    reads re
  {
    re != null ==> count <= re.Length && count <= |f| && forall i :: 0 <= i < count ==> re[i] == Narrow(f[i].re)
  }

  ghost predicate HoldsImags(im: array?<Short>, f: Frame, count: nat)
    reads im
  {
    im != null ==> count <= im.Length && count <= |f| && forall i :: 0 <= i < count ==> im[i] == Narrow(f[i].im)
  }

  lemma NothingHeld(re: array?<Short>, im: array?<Short>, f: Frame)
    ensures HoldsReals(re, f, 0) && HoldsImags(im, f, 0)
  {
  }

  /** Store the halves that are wanted. */
  method StoreBin(re: array?<Short>, im: array?<Short>, i: nat, w: C16, ghost f: Frame)
    requires i < |f| && w == f[i] && (re != null ==> i < re.Length) && (im != null ==> i < im.Length)
    requires (re != im ==> HoldsReals(re, f, i)) && HoldsImags(im, f, i)
    modifies re, im
    ensures (re != im ==> HoldsReals(re, f, i + 1)) && HoldsImags(im, f, i + 1)
  {
    hide Narrow;
    if re != null {
      re[i] := Narrow(w.re);
    }
    if im != null {
      im[i] := Narrow(w.im);
    }
  }

  class Engine {
    const plan: Plan<C16>
    /** The two sample memories, and which of them the program sees. */
    var bufs: (Frame, Frame)
    var cpuBuf: bool
    var busy: bool
    var done: bool
    /** How many register accesses pass before launch number k is complete: any function. */
    const latency: nat -> nat
    /** Register accesses that will pass before the running transform is complete. */
    var left: nat
    /** The frames handed over by accepted STARTs, in order, and how many they are. */
    ghost var launched: seq<Frame>
    var launches: nat

    constructor (plan: Plan<C16>, latency: nat -> nat, first: Frame, second: Frame)
      requires plan.Valid() && |first| == |second| == plan.N()
      ensures Valid() && this.plan == plan && this.latency == latency && launched == []
      ensures !busy && !done && Page() == first && Own() == second
    {
      this.plan, this.latency := plan, latency;
      bufs, cpuBuf, busy, done, left := (first, second), false, false, false, 0;
      launched, launches := [], 0;
    }

    ghost predicate Valid()
      reads this
    {
      && plan.Valid()
      && |bufs.0| == |bufs.1| == plan.N()
      && (done ==> !busy)
      && launches == |launched|
      && (busy ==> launched != [] && Own() == launched[|launched| - 1] && left <= latency(|launched| - 1))
    }

    /** The DATA page. */
    function Page(): Frame
      reads this
    {
      if cpuBuf then bufs.1 else bufs.0
    }

    function Own(): Frame
      reads this
    {
      if cpuBuf then bufs.0 else bufs.1
    }

    /** What the engine's buffer holds, or will hold when the running transform is complete. */
    ghost function Result(): (f: Frame)
      requires Valid()
      reads this
      ensures |f| == plan.N()
    {
      if busy then Transform(plan, Own()) else Own()
    }

    /** A register access: meanwhile a running transform may complete, in its own buffer. */
    method Access()
      requires Valid()
      modifies this
      ensures Valid() && Page() == old(Page()) && Result() == old(Result()) && launched == old(launched)
      ensures busy == (old(busy) && old(left) > 0) && (busy ==> left == old(left) - 1)
      ensures done == (old(done) || (old(busy) && old(left) == 0))
    {
      hide Transform;
      if busy {
        if left > 0 {
          left := left - 1;
        } else {
          busy, done := false, true;
          bufs := if cpuBuf then (Spectrum(bufs.0), bufs.1) else (bufs.0, Spectrum(bufs.1));
        }
      }
    }

    function Spectrum(f: Frame): (y: Frame)
      requires plan.Valid() && |f| == plan.N()
      ensures |y| == |f| && y == Transform(plan, f)
    {
      Transform(plan, f)
    }

    method Write(i: nat, re: int, im: int)
      requires Valid() && i < plan.N()
      modifies this
      ensures Valid() && Page() == old(Page())[i := Sample(re, im)] && Result() == old(Result())
      ensures launched == old(launched)
      ensures busy == (old(busy) && old(left) > 0) && (busy ==> left == old(left) - 1)
    {
      hide Transform, Narrow;
      Access();
      var s := Sample(re, im);
      bufs := if cpuBuf then (bufs.0, bufs.1[i := s]) else (bufs.0[i := s], bufs.1);
    }

    method Read(i: nat) returns (s: C16)
      requires Valid() && i < plan.N()
      modifies this
      ensures Valid() && Page() == old(Page()) && Result() == old(Result()) && launched == old(launched)
      ensures s == Page()[i]
      ensures busy ==> old(busy)
      ensures old(busy || done) ==> busy || done
    {
      Access();
      s := Page()[i];
    }

    /** Hand the filled buffer over and launch. The page then shows the other buffer, with the
        previous result. Ignored while the engine is still busy at the second access. */
    method FftStart()
      requires Valid()
      modifies this
      ensures Valid() && !done
      ensures old(busy) && old(left) >= 2 ==>
        && Page() == old(Page()) && Result() == old(Result()) && launched == old(launched)
        && busy && left == old(left) - 2
      ensures !(old(busy) && old(left) >= 2) ==>
        && Page() == old(Result()) && Result() == Transform(plan, old(Page()))
        && launched == old(launched) + [old(Page())]
        && busy && left == latency(|old(launched)|)
    {
      hide Transform;
      Access();
      done := false;
      Access();
      if !busy {
        Launch();
      }
    }

    /** An accepted START. */
    method Launch()
      requires Valid() && !busy
      modifies this
      ensures Valid() && !done && busy && left == latency(|old(launched)|)
      ensures Page() == old(Own()) && Own() == old(Page())
      ensures launched == old(launched) + [old(Page())]
    {
      hide Transform;
      cpuBuf := !cpuBuf;
      busy, done, left := true, false, latency(launches);
      launched, launches := launched + [Own()], launches + 1;
    }

    /** Trade the buffers without launching; ignored while busy. */
    method FftSwap()
      requires Valid()
      modifies this
      ensures Valid() && launched == old(launched)
      ensures !(old(busy) && old(left) >= 1) ==>
        Page() == old(Result()) && Result() == old(Page()) && !busy
      ensures old(busy) && old(left) >= 1 ==>
        Page() == old(Page()) && Result() == old(Result()) && busy
    {
      Access();
      if !busy {
        cpuBuf := !cpuBuf;
      }
    }

    /** Poll for DONE, at most SPIN_LIMIT times. */
    method FftWait() returns (ok: bool)
      requires Valid()
      modifies this
      ensures Valid() && Page() == old(Page()) && Result() == old(Result()) && launched == old(launched)
      ensures ok <==> old(done) || (old(busy) && old(left) < 2000000)
      ensures ok ==> done && !busy
      ensures !ok ==> busy == old(busy) && !done
    {
      var spin := 0;
      Access();
      while !done
        invariant Valid() && Page() == old(Page()) && Result() == old(Result()) && launched == old(launched)
        invariant 0 <= spin < SPIN_LIMIT
        invariant busy ==> old(busy) && left == old(left) - spin - 1
        invariant done <==> old(done) || (old(busy) && old(left) <= spin)
        invariant !done ==> busy == old(busy)
        decreases SPIN_LIMIT - spin
      {
        spin := spin + 1;
        if spin >= SPIN_LIMIT {
          return false;
        }
        Access();
      }
      return true;
    }

    /** The frame an input makes; without im it is real. */
    ghost function Input(re: array<Short>, im: array?<Short>): (f: Frame)
      requires re.Length >= plan.N() && (im != null ==> im.Length >= plan.N())
      reads re, im
      ensures |f| == plan.N()
      ensures forall i: nat :: i < |f| ==> f[i].re == re[i] && f[i].im == if im == null then 0 else im[i]
    {
      seq(plan.N(), (i: nat) requires i < plan.N() reads re, im => C16(re[i], if im == null then 0 else im[i]))
    }

    method FftFill(re: array<Short>, im: array?<Short>)
      requires Valid()
      requires re.Length >= plan.N() && (im != null ==> im.Length >= plan.N())
      modifies this
      ensures Valid() && Page() == Input(re, im) && Result() == old(Result()) && launched == old(launched)
      ensures forall i: nat :: i < plan.N() ==> Page()[i].re == re[i]
      ensures forall i: nat :: i < plan.N() ==> Page()[i].im == if im == null then 0 else im[i]
      ensures busy == (old(busy) && old(left) >= plan.N()) && (busy ==> left == old(left) - plan.N())
    {
      var i := 0;
      while i < plan.N()
        invariant i <= plan.N() && Valid() && Result() == old(Result()) && launched == old(launched)
        invariant Page()[..i] == Input(re, im)[..i]
        invariant busy == (old(busy) && old(left) >= i) && (busy ==> left == old(left) - i)
      {
        hide Transform;
        Write(i, re[i], if im == null then 0 else im[i]);
        i := i + 1;
      }
    }

    method FftReadAll(re: array?<Short>, im: array?<Short>)
      requires Valid()
      requires re != null ==> re.Length >= plan.N()
      requires im != null ==> im.Length >= plan.N()
      modifies this, re, im
      ensures Valid() && Page() == old(Page()) && Result() == old(Result()) && launched == old(launched)
      ensures re != im ==> HoldsReals(re, Page(), plan.N())
      ensures HoldsImags(im, Page(), plan.N())
    {
      hide Transform, HoldsReals, HoldsImags;
      ghost var f := Page();
      NothingHeld(re, im, f);
      var i := 0;
      while i < plan.N()
        invariant i <= plan.N() && Valid() && Page() == f && Result() == old(Result()) && launched == old(launched)
        invariant (re != im ==> HoldsReals(re, f, i)) && HoldsImags(im, f, i)
      {
        var w := Read(i);
        StoreBin(re, im, i, w, f);
        i := i + 1;
      }
    }

    /** Whether START will be ignored: an earlier launch outlasts the accesses before it. */
    predicate StillBusy()
      reads this
    {
      busy && left >= plan.N() + 3
    }

    /** One-shot blocking transform. It returns the transform of its own input, unless an
        earlier launch is still running when START is written: then START is ignored and what
        comes back is the transform of that earlier frame. It fails exactly when the launch it
        waits for outlasts the spin bound; then that launch is still running and nothing has been
        copied out. */
    method FftTransform(inRe: array<Short>, inIm: array?<Short>, outRe: array?<Short>, outIm: array?<Short>)
      returns (ok: bool)
      requires Valid()
      requires inRe.Length >= plan.N() && (inIm != null ==> inIm.Length >= plan.N())
      requires outRe != null ==> outRe.Length >= plan.N()
      requires outIm != null ==> outIm.Length >= plan.N()
      modifies this, outRe, outIm
      ensures Valid()
      ensures ok <==> SPIN_LIMIT > if old(StillBusy()) then old(left) - (plan.N() + 3) else latency(|old(launched)|)
      ensures launched == old(launched) + if old(StillBusy()) then [] else [old(Input(inRe, inIm))]
      ensures ok ==> Page() == if old(StillBusy()) then old(Result()) else Transform(plan, old(Input(inRe, inIm)))
      ensures ok && outRe != outIm ==> HoldsReals(outRe, Page(), plan.N())
      ensures ok ==> HoldsImags(outIm, Page(), plan.N())
      ensures !ok ==> busy && (outRe != null ==> unchanged(outRe)) && (outIm != null ==> unchanged(outIm))
      ensures !ok && old(StillBusy()) ==> Page() == old(Input(inRe, inIm)) && Result() == old(Result())
      ensures !ok && !old(StillBusy()) ==>
        Page() == old(Result()) && Result() == Transform(plan, old(Input(inRe, inIm)))
    {
      hide Transform, Narrow, Input;
      Access();
      FftFill(inRe, inIm);
      FftStart();
      ok := FftWait();
      if !ok {
        return;
      }
      FftSwap();
      FftReadAll(outRe, outIm);
    }
  }
}
