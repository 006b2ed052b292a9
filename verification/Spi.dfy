/** The windowed full-duplex exchange of sim/sw/common/spi.h against the free-running engine:
    two FIFOs of sixteen bytes, one reply for each byte sent, and no promise about when. */
module Spi {

  import opened PowersOfTwo

  const FIFO_DEPTH := 16

  type Byte = b: int | IsByte(b)

  datatype Shifter = Quiet | Busy(byte: Byte)

  /** The device: TX FIFO, shift register, RX FIFO, and every byte that has gone out. */
  datatype Port = Port(tx: seq<Byte>, shifter: Shifter, rx: seq<Byte>, overrun: bool, wire: seq<Byte>)
  {
    function InShift(): nat { if shifter.Busy? then 1 else 0 }

    /** Bytes pushed and not yet popped. */
    function InFlight(): nat { |tx| + InShift() + |rx| }

    /** Engine steps until the TX side is drained. */
    function Work(): nat { 2 * |tx| + InShift() }
  }

  /** What the other end answers to the next byte, given all the bytes before it. */
  type Peripheral = seq<Byte> -> Byte

  /** The engine takes a byte from the TX FIFO, or completes the one in the shifter. A reply
      that finds the RX FIFO full is dropped and flagged. */
  function EngineStep(p: Port, slave: Peripheral): Port {
    match p.shifter
    case Busy(b) =>
      var reply := slave(p.wire);
      if |p.rx| < FIFO_DEPTH then Port(p.tx, Quiet, p.rx + [reply], p.overrun, p.wire + [b])
      else Port(p.tx, Quiet, p.rx, true, p.wire + [b])
    case Quiet => if p.tx == [] then p else Port(p.tx[1..], Busy(p.tx[0]), p.rx, p.overrun, p.wire)
  }

  function EngineRun(p: Port, slave: Peripheral, steps: nat): Port
    decreases steps
  {
    if steps == 0 then p else EngineRun(EngineStep(p, slave), slave, steps - 1)
  }

  // ------------------------------------------------------------ the exchange

  /** The reply to byte i of data, sent after the bytes in `start`. */
  function ReplyTo(slave: Peripheral, start: seq<Byte>, data: seq<Byte>, i: nat): Byte
    requires i <= |data|
  {
    slave(start + data[..i])
  }

  /** Where every byte of the exchange is: popped, in the RX FIFO, in the shifter, in the TX
      FIFO, or not pushed yet; and the window is never exceeded. */
  ghost predicate Exchange(p: Port, slave: Peripheral, start: seq<Byte>, data: seq<Byte>, pushed: nat, popped: nat) {
    && popped <= pushed <= |data|
    && pushed - popped == p.InFlight() <= FIFO_DEPTH
    && !p.overrun
    && (var sent := popped + |p.rx|;
        && p.wire == start + data[..sent]
        && (forall j :: 0 <= j < |p.rx| ==> p.rx[j] == ReplyTo(slave, start, data, popped + j))
        && (p.shifter.Busy? ==> p.shifter.byte == data[sent])
        && p.tx == data[sent + p.InShift()..pushed])
  }

  /** The engine, whenever it moves, keeps the exchange in order: in particular the RX FIFO
      never overruns. */
  lemma EngineKeepsExchange(p: Port, slave: Peripheral, start: seq<Byte>, data: seq<Byte>, pushed: nat, popped: nat)
    requires Exchange(p, slave, start, data, pushed, popped)
    ensures Exchange(EngineStep(p, slave), slave, start, data, pushed, popped)
    ensures p.Work() > 0 ==> EngineStep(p, slave).Work() == p.Work() - 1
    ensures p.rx <= EngineStep(p, slave).rx
  {
    var sent := popped + |p.rx|;
    if p.shifter.Busy? {
      assert data[..sent] + [data[sent]] == data[..sent + 1];
      assert start + data[..sent] + [data[sent]] == start + data[..sent + 1];
    }
  }

  lemma {:induction false} EngineRunKeepsExchange(p: Port, slave: Peripheral, start: seq<Byte>, data: seq<Byte>,
                                                  pushed: nat, popped: nat, steps: nat)
    requires Exchange(p, slave, start, data, pushed, popped)
    ensures var q := EngineRun(p, slave, steps);
      && Exchange(q, slave, start, data, pushed, popped)
      && p.rx <= q.rx
      && q.Work() == if steps <= p.Work() then p.Work() - steps else 0
    decreases steps
  {
    if steps > 0 {
      EngineKeepsExchange(p, slave, start, data, pushed, popped);
      hide Exchange, EngineStep;
      if p.Work() == 0 {
        IdleEngine(p, slave);
      }
      EngineRunKeepsExchange(EngineStep(p, slave), slave, start, data, pushed, popped, steps - 1);
    }
  }

  lemma IdleEngine(p: Port, slave: Peripheral)
    requires p.Work() == 0
    ensures EngineStep(p, slave) == p
  {
  }

  lemma PushKeepsExchange(p: Port, slave: Peripheral, start: seq<Byte>, data: seq<Byte>, pushed: nat, popped: nat)
    requires Exchange(p, slave, start, data, pushed, popped)
    requires pushed < |data| && pushed - popped < FIFO_DEPTH
    ensures Exchange(p.(tx := p.tx + [data[pushed]]), slave, start, data, pushed + 1, popped)
  {
    var sent := popped + |p.rx|;
    assert data[sent + p.InShift()..pushed] + [data[pushed]] == data[sent + p.InShift()..pushed + 1];
  }

  lemma PopKeepsExchange(p: Port, slave: Peripheral, start: seq<Byte>, data: seq<Byte>, pushed: nat, popped: nat)
    requires Exchange(p, slave, start, data, pushed, popped) && p.rx != []
    ensures p.rx[0] == ReplyTo(slave, start, data, popped)
    ensures Exchange(p.(rx := p.rx[1..]), slave, start, data, pushed, popped + 1)
  {
  }

  /** When everything is popped the device is empty and exactly `data` has gone out. */
  lemma ExchangeOver(p: Port, slave: Peripheral, start: seq<Byte>, data: seq<Byte>)
    requires Exchange(p, slave, start, data, |data|, |data|)
    ensures p == Port([], Quiet, [], false, start + data)
  {
    assert data[..|data|] == data;
  }

  lemma {:induction false} EngineRunNext(p: Port, slave: Peripheral, n: nat)
    ensures EngineRun(p, slave, n + 1) == EngineStep(EngineRun(p, slave, n), slave)
    decreases n
  {
    if n > 0 {
      EngineRunNext(EngineStep(p, slave), slave, n - 1);
    }
  }

  lemma ExchangeBegins(p: Port, slave: Peripheral, data: seq<Byte>)
    requires p.tx == [] && p.shifter.Quiet? && p.rx == [] && !p.overrun
    ensures Exchange(p, slave, p.wire, data, 0, 0)
  {
    assert p.wire + data[..0] == p.wire;
  }

  /** The TX FIFO has room while the window is open, and work remains until the next reply is in. */
  lemma WindowBounds(p: Port, slave: Peripheral, start: seq<Byte>, data: seq<Byte>, pushed: nat, popped: nat)
    requires Exchange(p, slave, start, data, pushed, popped)
    ensures popped <= pushed <= |data| && pushed - popped <= FIFO_DEPTH
    ensures pushed - popped < FIFO_DEPTH ==> |p.tx| < FIFO_DEPTH
    ensures popped < pushed && p.rx == [] ==> p.Work() > 0
  {
  }

  /** Without a transmit buffer the program sends 0xFF fillers. */
  function Fillers(len: nat): seq<Byte> { seq(len, i => 0xFF) }

  /** The bytes an exchange puts on the wire. */
  ghost function ToSend(tx: array?<Byte>, len: nat): (data: seq<Byte>)
    requires tx != null ==> len <= tx.Length
    reads tx
    ensures |data| == len && Unsent(tx, data, 0)
  {
    if tx == null then Fillers(len) else tx[..len]
  }

  ghost predicate Unsent(tx: array?<Byte>, data: seq<Byte>, pushed: nat)
    reads tx
  {
    if tx == null then data == Fillers(|data|)
    else |data| <= tx.Length && forall i :: pushed <= i < |data| ==> tx[i] == data[i]
  }

  ghost predicate Received(rx: array?<Byte>, slave: Peripheral, start: seq<Byte>, data: seq<Byte>, popped: nat)
    requires popped <= |data|
    reads rx
  {
    rx != null ==> popped <= rx.Length && forall i :: 0 <= i < popped ==> rx[i] == ReplyTo(slave, start, data, i)
  }

  lemma NothingReceived(rx: array?<Byte>, slave: Peripheral, start: seq<Byte>, data: seq<Byte>)
    ensures Received(rx, slave, start, data, 0)
  {
  }

  lemma SendsTheBuffer(tx: array?<Byte>, len: nat)
    requires tx != null ==> len <= tx.Length
    ensures tx != null ==> ToSend(tx, len) == tx[..len]
    ensures tx == null ==> forall b :: b in ToSend(tx, len) ==> b == 255
  {
  }

  /** Each reply answers what had gone out before. */
  lemma RepliesToPrefixes(rx: array?<Byte>, slave: Peripheral, start: seq<Byte>, data: seq<Byte>)
    requires Received(rx, slave, start, data, |data|)
    ensures rx != null ==>
      (|data| <= rx.Length && forall i: nat :: i < |data| ==> rx[i] == slave((start + data)[..|start| + i]))
  {
    forall i: nat | i < |data| ensures (start + data)[..|start| + i] == start + data[..i] {
    }
  }

  /** The part of the receive buffer an exchange of len bytes must leave alone. */
  ghost function Beyond(rx: array?<Byte>, len: nat): seq<Byte>
    requires rx != null ==> len <= rx.Length
    reads rx
  {
    if rx == null then [] else rx[len..]
  }

  // ------------------------------------------------------------ the program

  class SpiDevice {
    var port: Port
    const slave: Peripheral

    constructor (slave: Peripheral)
      ensures this.slave == slave && port == Port([], Quiet, [], false, [])
    {
      this.slave := slave;
      port := Port([], Quiet, [], false, []);
    }

    /** Between any two register accesses the engine may take any number of steps. Patience
        stands for fairness: it runs out unless the engine moves, and an engine that still has
        work moves when it has run out. */
    method Elapse(patience: nat) returns (left: nat, ghost steps: nat)
      modifies this
      ensures port == EngineRun(old(port), slave, steps)
      ensures steps == 0 && old(port).Work() > 0 ==> left < patience
    {
      var n: nat :| n >= 0;
      left :| left >= 0;
      if n == 0 && port.Work() > 0 {
        if patience == 0 {
          n := 1;
        } else {
          left := patience - 1;
        }
      }
      steps := 0;
      while n > 0
        invariant port == EngineRun(old(port), slave, steps)
        invariant n == 0 && steps == 0 && old(port).Work() > 0 ==> left < patience
      {
        EngineRunNext(old(port), slave, steps);
        port := EngineStep(port, slave);
        steps := steps + 1;
        n := n - 1;
      }
    }

    /** The same, seen from inside an exchange. */
    method Wait(patience: nat, ghost start: seq<Byte>, ghost data: seq<Byte>, ghost pushed: nat, ghost popped: nat)
      returns (left: nat)
      requires Exchange(port, slave, start, data, pushed, popped)
      modifies this
      ensures Exchange(port, slave, start, data, pushed, popped)
      ensures port.Work() <= old(port).Work() && old(port).rx <= port.rx
      ensures port.Work() == old(port).Work() > 0 ==> left < patience
    {
      hide Exchange;
      ghost var steps: nat;
      left, steps := Elapse(patience);
      EngineRunKeepsExchange(old(port), slave, start, data, pushed, popped, steps);
    }

    /** Push while there is something to push, the window is open and the TX FIFO has room. */
    method PushWindow(tx: array?<Byte>, len: nat, pushed0: nat, popped: nat, patience: nat,
                      ghost start: seq<Byte>, ghost data: seq<Byte>)
      returns (pushed: nat, left: nat)
      requires len == |data| && popped < len && Unsent(tx, data, pushed0)
      requires Exchange(port, slave, start, data, pushed0, popped)
      modifies this
      ensures Exchange(port, slave, start, data, pushed, popped) && pushed0 <= pushed && popped < pushed
      ensures pushed == len || pushed - popped == 16
    {
      hide Exchange;
      pushed, left := pushed0, patience;
      WindowBounds(port, slave, start, data, pushed, popped);
      while pushed < len && pushed - popped < FIFO_DEPTH
        invariant pushed0 <= pushed && popped <= pushed <= len && pushed - popped <= FIFO_DEPTH
        invariant Exchange(port, slave, start, data, pushed, popped)
      {
        left := Wait(left, start, data, pushed, popped);
        WindowBounds(port, slave, start, data, pushed, popped);
        if |port.tx| == FIFO_DEPTH {
          break;
        }
        left := Wait(left, start, data, pushed, popped);
        PushKeepsExchange(port, slave, start, data, pushed, popped);
        port := port.(tx := port.tx + [if tx == null then 0xFF else tx[pushed]]);
        pushed := pushed + 1;
      }
    }

    /** Poll until a reply is there, and pop it. */
    method PopReply(popped: nat, patience: nat, ghost start: seq<Byte>, ghost data: seq<Byte>, ghost pushed: nat)
      returns (reply: Byte, left: nat)
      requires Exchange(port, slave, start, data, pushed, popped) && popped < pushed
      modifies this
      ensures Exchange(port, slave, start, data, pushed, popped + 1)
      ensures popped < |data| && reply == ReplyTo(slave, start, data, popped)
    {
      hide Exchange;
      left := Wait(patience, start, data, pushed, popped);
      WindowBounds(port, slave, start, data, pushed, popped);
      while port.rx == []
        invariant Exchange(port, slave, start, data, pushed, popped)
        decreases port.Work(), left
      {
        WindowBounds(port, slave, start, data, pushed, popped);
        left := Wait(left, start, data, pushed, popped);
      }
      left := Wait(left, start, data, pushed, popped);
      PopKeepsExchange(port, slave, start, data, pushed, popped);
      reply := port.rx[0];
      port := port.(rx := port.rx[1..]);
    }

    /** One pass of the outer loop: fill the window, then take the next reply. */
    method ExchangeOne(tx: array?<Byte>, rx: array?<Byte>, len: nat, pushed0: nat, popped: nat, patience: nat,
                       ghost start: seq<Byte>, ghost data: seq<Byte>)
      returns (pushed: nat, left: nat)
      requires len == |data| && popped < len && (rx != null ==> len <= rx.Length)
      requires Exchange(port, slave, start, data, pushed0, popped)
      requires Unsent(tx, data, pushed0) && Received(rx, slave, start, data, popped)
      modifies this, if rx == null then {} else {rx}
      ensures Exchange(port, slave, start, data, pushed, popped + 1)
      ensures Unsent(tx, data, pushed) && Received(rx, slave, start, data, popped + 1)
      ensures Beyond(rx, len) == old(Beyond(rx, len))
    {
      hide Exchange, ReplyTo;
      var reply: Byte;
      pushed, left := PushWindow(tx, len, pushed0, popped, patience, start, data);
      reply, left := PopReply(popped, left, start, data, pushed);
      if rx != null {
        rx[popped] := reply;
      }
    }

    /** Exchange len bytes: keep at most sixteen in flight. A null tx sends 0xFF fillers, a null
        rx discards the replies, and tx and rx may be the same buffer. */
    method SpiTransferBuf(tx: array?<Byte>, rx: array?<Byte>, len: nat)
      requires port.tx == [] && port.shifter.Quiet? && port.rx == [] && !port.overrun
      requires tx != null ==> len <= tx.Length
      requires rx != null ==> len <= rx.Length
      modifies this, if rx == null then {} else {rx}
      ensures port == Port([], Quiet, [], false, old(port.wire) + old(ToSend(tx, len)))
      ensures Received(rx, slave, old(port.wire), old(ToSend(tx, len)), len)
      ensures Beyond(rx, len) == old(Beyond(rx, len))
      ensures |port.wire| == |old(port.wire)| + len && old(port.wire) <= port.wire
      ensures tx != null ==> port.wire[|old(port.wire)|..] == old(tx[..len])
      ensures tx == null ==> forall b :: b in port.wire[|old(port.wire)|..] ==> b == 255
      ensures rx != null ==> forall i: nat :: i < len ==> rx[i] == slave(port.wire[..|old(port.wire)| + i])
    {
      hide Exchange, ReplyTo, ToSend, Unsent, Received, Beyond;
      ghost var start, data := port.wire, ToSend(tx, len);
      SendsTheBuffer(tx, len);
      ExchangeBegins(port, slave, data);
      NothingReceived(rx, slave, start, data);
      ExchangeAll(tx, rx, len, start, data);
      ExchangeOver(port, slave, start, data);
      assert port.wire[|start|..] == data;
      RepliesToPrefixes(rx, slave, start, data);
    }

    /** The outer loop. */
    method ExchangeAll(tx: array?<Byte>, rx: array?<Byte>, len: nat, ghost start: seq<Byte>, ghost data: seq<Byte>)
      requires len == |data| && (rx != null ==> len <= rx.Length)
      requires Exchange(port, slave, start, data, 0, 0) && Unsent(tx, data, 0) && Received(rx, slave, start, data, 0)
      modifies this, if rx == null then {} else {rx}
      ensures Exchange(port, slave, start, data, len, len) && Received(rx, slave, start, data, len)
      ensures Beyond(rx, len) == old(Beyond(rx, len))
    {
      hide Exchange, ReplyTo, Unsent, Received, Beyond;
      var pushed, popped: nat := 0, 0;
      var patience: nat :| patience >= 0;
      while popped < len
        invariant popped <= len && Exchange(port, slave, start, data, pushed, popped)
        invariant Unsent(tx, data, pushed) && Received(rx, slave, start, data, popped)
        invariant Beyond(rx, len) == old(Beyond(rx, len))
      {
        pushed, patience := ExchangeOne(tx, rx, len, pushed, popped, patience, start, data);
        popped := popped + 1;
      }
      WindowBounds(port, slave, start, data, pushed, popped);
    }
  }
}
