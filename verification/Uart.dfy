/** labuart/uart.c: the receive path and the direct transmit path over a polled serial port. */
module Uart {
  import opened Bytes

  const UART_MAX_TRIES: nat := 15

  // Bit positions in the interrupt identification register, as labuart/rs232.h has them.
  const IIR_TRNSMT_EMPTY: nat := 1
  const IIR_RECV_DATA_AVAIL: nat := 2

  datatype Option<T> = None | Some(value: T)

  /** One look at the receiver: the status read can fail; a ready byte is read, which can fail too. */
  datatype Look = StatusFails | Status(ready: bool, lineError: bool, buffer: Option<Byte>) {
    /** The byte this look takes out of the receiver buffer, flagged or not. */
    function Taken(): (taken: Option<Byte>) {
      if Status? && ready then buffer else None
    }

    /** The byte this look receives in good order. */
    function Received(): (taken: Option<Byte>) {
      if Status? && !lineError then Taken() else None
    }

    /** Neither a byte in good order nor a line error: the look only uses up a try. */
    predicate Quiet() {
      StatusFails? || (!lineError && Received() == None)
    }
  }

  /** Which looks take a byte, which receive one, and which only use up a try, shape by shape. */
  lemma LookByShape(look: Look, b: Byte)
    ensures look.Taken() == Some(b) <==> look == Status(true, false, Some(b)) || look == Status(true, true, Some(b))
    ensures look.Received() == Some(b) <==> look == Status(true, false, Some(b))
    ensures look.Quiet() <==> || look == StatusFails || look == Status(true, false, None)
                              || (look.Status? && !look.ready && !look.lineError)
  {
  }

  /** The bits of the interrupt id that `uart_ih` asks for, by division. */
  lemma InterruptBits(id: Byte)
    ensures HasBit(id, IIR_TRNSMT_EMPTY) <==> id / 2 % 2 == 1
    ensures HasBit(id, IIR_RECV_DATA_AVAIL) <==> id / 4 % 2 == 1
  {
    LowBits(id);
  }

  /** What successive looks at the line status show. */
  type Line = nat -> Look

  /** The bytes received in good order by the looks from i to j, oldest first. */
  function Arrivals(line: Line, i: nat, j: nat): (bytes: seq<Byte>) {
    if j <= i then []
    else match line(j - 1).Received()
         case None => Arrivals(line, i, j - 1)
         case Some(b) => Arrivals(line, i, j - 1) + [b]
  }

  ghost predicate QuietBetween(line: Line, i: nat, j: nat) {
    forall t: nat | i <= t < j :: line(t).Quiet()
  }

  lemma {:induction false} QuietAddsNothing(line: Line, i: nat, j: nat, k: nat)
    requires i <= j <= k && QuietBetween(line, j, k)
    ensures Arrivals(line, i, k) == Arrivals(line, i, j)
    decreases k
  {
    if j < k {
      assert line(k - 1).Quiet();
      QuietAddsNothing(line, i, j, k - 1);
    }
  }

  lemma {:induction false} ArrivalsOn(line: Line, i: nat, j: nat, k: nat)
    requires i <= j <= k
    ensures Arrivals(line, i, k) == Arrivals(line, i, j) + Arrivals(line, j, k)
    decreases k
  {
    if j < k {
      ArrivalsOn(line, i, j, k - 1);
    }
  }

  /** The last byte taken from the receiver buffer by the looks from i to j, or else the given one. */
  function LastTaken(line: Line, i: nat, j: nat, byte: Byte): (last: Byte) {
    if j <= i then byte
    else match line(j - 1).Taken()
         case None => LastTaken(line, i, j - 1, byte)
         case Some(b) => b
  }

  /** The fifteen looks before t were quiet: where a drain loop stops. */
  ghost predicate Drained(line: Line, t: nat) {
    t >= UART_MAX_TRIES && QuietBetween(line, t - UART_MAX_TRIES, t)
  }

  lemma {:induction false} LastTakenOn(line: Line, i: nat, j: nat, k: nat, byte: Byte)
    requires i <= j <= k
    ensures LastTaken(line, i, k, byte) == LastTaken(line, j, k, LastTaken(line, i, j, byte))
    decreases k
  {
    if j < k {
      LastTakenOn(line, i, j, k - 1, byte);
    }
  }

  /** Look t takes the last byte taken by the looks from i to j. */
  ghost predicate LastTaking(line: Line, i: nat, j: nat, t: nat) {
    i <= t < j && line(t).Taken() != None && forall u: nat | t < u < j :: line(u).Taken() == None
  }

  lemma {:induction false} NoneTaken(line: Line, i: nat, j: nat, byte: Byte)
    requires forall t: nat | i <= t < j :: line(t).Taken() == None
    ensures LastTaken(line, i, j, byte) == byte
  {
    if i < j {
      NoneTaken(line, i, j - 1, byte);
    }
  }

  lemma {:induction false} LastTakenIs(line: Line, i: nat, j: nat, t: nat, byte: Byte)
    requires LastTaking(line, i, j, t)
    ensures line(t).Taken() == Some(LastTaken(line, i, j, byte))
    decreases j
  {
    if t < j - 1 {
      LastTakenIs(line, i, j - 1, t, byte);
    }
  }

  lemma {:induction false} SomeLook(line: Line, i: nat, j: nat, s: nat) returns (t: nat)
    requires i <= s < j && line(s).Taken() != None
    ensures LastTaking(line, i, j, t)
    decreases j - s
  {
    if u: nat :| s < u < j && line(u).Taken() != None {
      t := SomeLook(line, i, j, u);
    } else {
      t := s;
    }
  }

  /**
   * `uart_ih` decides whether to send by bit 1 of the last byte taken: that is what the interrupt id asks for exactly
   * when no byte was taken, or the last one agrees with the id in that bit.
   */
  lemma SendsAsIdAsks(line: Line, i: nat, j: nat, id: Byte)
    ensures HasBit(LastTaken(line, i, j, id), IIR_TRNSMT_EMPTY) == HasBit(id, IIR_TRNSMT_EMPTY)
            <==> forall t: nat | LastTaking(line, i, j, t) ::
                   HasBit(line(t).Taken().value, IIR_TRNSMT_EMPTY) == HasBit(id, IIR_TRNSMT_EMPTY)
  {
    forall t: nat | LastTaking(line, i, j, t)
      ensures line(t).Taken() == Some(LastTaken(line, i, j, id))
    {
      LastTakenIs(line, i, j, t, id);
    }
    if s: nat :| i <= s < j && line(s).Taken() != None {
      var t := SomeLook(line, i, j, s);
    } else {
      NoneTaken(line, i, j, id);
    }
  }

  function Fresh(line: Line, t: nat): (bytes: seq<Byte>) {
    match line(t).Received()
    case None => []
    case Some(b) => [b]
  }

  /** A drain that began at `from` and has not yet met fifteen quiet looks in a row; its last look was not quiet. */
  ghost predicate Draining(line: Line, from: nat, at: nat) {
    && from <= at && (at == from || !line(at - 1).Quiet())
    && forall t: nat | from + UART_MAX_TRIES <= t <= at :: !Drained(line, t)
  }

  /** The drain from `from` ends at `to`: there, and nowhere before, fifteen looks in a row were quiet. */
  ghost predicate DrainsTo(line: Line, from: nat, to: nat) {
    && from + UART_MAX_TRIES <= to && Drained(line, to)
    && forall t: nat | from + UART_MAX_TRIES <= t < to :: !Drained(line, t)
  }

  /** The looks from i to j are those of one `uart_receive_byte`. */
  ghost predicate OneReceive(line: Line, i: nat, j: nat) {
    && i < j <= i + UART_MAX_TRIES && QuietBetween(line, i, j - 1)
    && (line(j - 1).Quiet() ==> j == i + UART_MAX_TRIES)
  }

  /** One `uart_receive_byte` of a drain either continues it or ends it, at the first possible moment. */
  lemma DrainOn(line: Line, from: nat, i: nat, j: nat)
    requires Draining(line, from, i) && OneReceive(line, i, j)
    ensures if line(j - 1).Quiet() then DrainsTo(line, from, j) else Draining(line, from, j)
    ensures Arrivals(line, from, j) == Arrivals(line, from, i) + Fresh(line, j - 1)
  {
    forall t: nat | from + UART_MAX_TRIES <= t <= j && (t < j || !line(j - 1).Quiet())
      ensures !Drained(line, t)
    {
      if i < t {
        assert !line((if t < j then i else j) - 1).Quiet();
      }
    }
    QuietAddsNothing(line, from, i, j - 1);
  }

  /** The looks at the transmitter from i to j are those of one `uart_send_byte`: only the last can find it empty. */
  ghost predicate OneSend(transmitter: nat -> bool, i: nat, j: nat) {
    && i < j <= i + UART_MAX_TRIES
    && (forall t: nat | i <= t < j - 1 :: !transmitter(t))
    && (transmitter(j - 1) || j == i + UART_MAX_TRIES)
  }

  datatype Code = Ok | NoByte | LineError

  /** The serial port. Its two queues stand for linked queues, by the contents they are proved to have. */
  class Port {
    const line: Line
    /** For each look at the transmitter, whether its holding register is empty. */
    const transmitter: nat -> bool
    /** From this look on nothing arrives: only finitely much input is considered. */
    ghost const horizon: nat

    var looks: nat
    var transmitterLooks: nat
    var inFifo: seq<Byte>
    var outFifo: seq<Byte>
    var canSend: bool
    /** The bytes written to the transmit holding register. */
    var wire: seq<Byte>
    /** The bytes handed to `uart_send_byte`, written or not. */
    ghost var offered: seq<Byte>
    /** The bytes given to the application, including the ones its cleanup throws away. */
    ghost var handed: seq<Byte>

    ghost predicate Valid()
      reads this
    {
      && (forall t: nat | t >= horizon :: line(t).Quiet())
      && handed + inFifo == Arrivals(line, 0, looks)
    }

    constructor (line: Line, transmitter: nat -> bool, ghost horizon: nat)
      requires forall t: nat | t >= horizon :: line(t).Quiet()
      ensures Valid() && canSend
      ensures this.line == line && this.transmitter == transmitter && this.horizon == horizon
      ensures looks == 0 && inFifo == [] && outFifo == [] && wire == [] && offered == [] && handed == []
    {
      this.line, this.transmitter, this.horizon := line, transmitter, horizon;
      looks, transmitterLooks, canSend := 0, 0, true;
      inFifo, outFifo, wire, offered, handed := [], [], [], [], [];
    }

    /** `uart_receive_byte`: up to fifteen looks, ended by the first that is not quiet. */
    method ReceiveByte(byte: Byte) returns (code: Code, b: Byte)
      modifies this`looks
      ensures OneReceive(line, old(looks), looks)
      ensures code == NoByte <==> line(looks - 1).Quiet()
      ensures code == LineError <==> line(looks - 1).Status? && line(looks - 1).lineError
      ensures looks <= old(looks) + 15 && (code == NoByte ==> looks == old(looks) + 15)
      ensures code == Ok <==> line(looks - 1).Received().Some?
      ensures code == Ok ==> Fresh(line, looks - 1) == [b]
      ensures b == LastTaken(line, old(looks), looks, byte)
    {
      var tries := 0;
      b := byte;
      while tries < UART_MAX_TRIES
        invariant tries <= UART_MAX_TRIES && looks == old(looks) + tries
        invariant QuietBetween(line, old(looks), looks)
        invariant b == LastTaken(line, old(looks), looks, byte)
      {
        var look := line(looks);
        looks := looks + 1;
        if look.StatusFails? {
          tries := tries + 1;
          continue;
        }
        var err := true;
        if look.ready && look.buffer.Some? {
          b := look.buffer.value;
          err := false;
        }
        if look.lineError {
          return LineError, b;
        }
        if !err {
          return Ok, b;
        }
        tries := tries + 1;
      }
      return NoByte, b;
    }

    /** `uart_recv_front`. */
    method RecvFront() returns (got: bool, byte: Byte)
      requires Valid()
      modifies this`inFifo, this`handed
      ensures Valid()
      ensures got <==> old(inFifo) != []
      ensures if got then [byte] + inFifo == old(inFifo) && handed == old(handed) + [byte]
              else inFifo == [] && handed == old(handed)
    {
      byte := 0;
      if inFifo == [] {
        return false, byte;
      }
      byte, inFifo := inFifo[0], inFifo[1..];
      handed := handed + [byte];
      return true, byte;
    }

    /** `uart_send_byte`: up to fifteen looks for an empty holding register. */
    method SendByte(b: Byte) returns (sent: bool)
      modifies this`transmitterLooks, this`wire, this`offered
      ensures OneSend(transmitter, old(transmitterLooks), transmitterLooks)
      ensures sent <==> transmitter(transmitterLooks - 1)
      ensures transmitterLooks <= old(transmitterLooks) + 15
      ensures !sent ==> transmitterLooks == old(transmitterLooks) + 15
      ensures offered == old(offered) + [b] && wire == old(wire) + if sent then [b] else []
    {
      var tries := 0;
      offered := offered + [b];
      while tries < UART_MAX_TRIES
        invariant tries <= UART_MAX_TRIES && transmitterLooks == old(transmitterLooks) + tries
        invariant wire == old(wire) && offered == old(offered) + [b]
        invariant forall t: nat | old(transmitterLooks) <= t < transmitterLooks :: !transmitter(t)
      {
        var ready := transmitter(transmitterLooks);
        transmitterLooks := transmitterLooks + 1;
        if ready {
          wire := wire + [b];
          return true;
        }
        tries := tries + 1;
      }
      return false;
    }

    /** `empty_transmit_queue` only asks whether the queue is empty: contrary to its name it takes nothing out. */
    method EmptyTransmitQueue() {
      var empty := outFifo == [];
    }

    /** `transmitter_empty`. */
    method TransmitterEmpty() returns (empty: bool)
      ensures empty == canSend
    {
      empty := canSend;
    }

    /** The drain loop of `uart_ih`: ends with the first fifteen quiet looks in a row. */
    method DrainIntoFifo(byte: Byte) returns (last: Byte)
      requires Valid()
      modifies this`looks, this`inFifo
      ensures Valid()
      ensures DrainsTo(line, old(looks), looks)
      ensures inFifo == old(inFifo) + Arrivals(line, old(looks), looks)
      ensures last == LastTaken(line, old(looks), looks, byte)
    {
      var code := Ok;
      ghost var from := looks;
      last := byte;
      while code != NoByte
        invariant from <= looks && (code != NoByte ==> looks == from || looks <= horizon)
        invariant if code == NoByte then DrainsTo(line, from, looks) else Draining(line, from, looks)
        invariant inFifo == old(inFifo) + Arrivals(line, from, looks)
        invariant last == LastTaken(line, from, looks, byte)
        decreases if code == NoByte then 0 else if looks <= horizon then horizon - looks + 2 else 1
      {
        ghost var i := looks;
        code, last := ReceiveByte(last);
        if code == Ok {
          inFifo := inFifo + [last];
        }
        DrainOn(line, from, i, looks);
        LastTakenOn(line, from, i, looks, byte);
      }
      ArrivalsOn(line, 0, from, looks);
    }

    /** The byte the transmit test of `uart_ih` reads asks for a byte to be sent. */
    ghost predicate AskedToSend(iir: Option<Byte>, from: nat, to: nat) {
      iir.Some? && HasBit(LastTaken(line, from, to, iir.value), IIR_TRNSMT_EMPTY)
    }

    /** `uart_ih`; the argument is what reading the interrupt identification register gives. */
    method InterruptHandler(iir: Option<Byte>)
      requires Valid()
      modifies this
      ensures Valid() && handed == old(handed)
      ensures if iir.Some? && HasBit(iir.value, IIR_RECV_DATA_AVAIL)
              then DrainsTo(line, old(looks), looks) else looks == old(looks)
      ensures inFifo == old(inFifo) + Arrivals(line, old(looks), looks)
      ensures canSend <==> old(canSend) || (AskedToSend(iir, old(looks), looks) && old(outFifo) == [])
      ensures if AskedToSend(iir, old(looks), looks) && old(outFifo) != []
              then OneSend(transmitter, old(transmitterLooks), transmitterLooks)
                   && offered == old(offered) + [old(outFifo)[0]] && outFifo == old(outFifo)[1..]
                   && wire == old(wire) + if transmitter(transmitterLooks - 1) then [old(outFifo)[0]] else []
              else transmitterLooks == old(transmitterLooks)
                   && offered == old(offered) && outFifo == old(outFifo) && wire == old(wire)
    {
      if iir.None? {
        return;
      }
      var byte := iir.value;
      if HasBit(byte, IIR_RECV_DATA_AVAIL) {
        byte := DrainIntoFifo(byte);
      }
      if HasBit(byte, IIR_TRNSMT_EMPTY) {
        if outFifo == [] {
          canSend := true;
          return;
        }
        var sent := SendByte(outFifo[0]);
        outFifo := outFifo[1..];
      }
    }
  }

  // ----- Interrupts by their id ----------

  /**
   * An interrupt that announces no data, on a port with queue q: its first byte is sent exactly when bit 1 of the id is
   * set, and nothing else happens.
   */
  method TransmitInterrupt(line: Line, transmitter: nat -> bool, ghost horizon: nat, id: Byte, q: seq<Byte>)
    returns (port: Port)
    requires forall t: nat | t >= horizon :: line(t).Quiet()
    requires id / 4 % 2 == 0
    ensures port.looks == 0 && port.inFifo == [] && port.canSend
    ensures if id / 2 % 2 == 1 && q != [] then port.offered == [q[0]] && port.outFifo == q[1..]
            else port.offered == [] && port.outFifo == q && port.wire == []
  {
    InterruptBits(id);
    port := new Port(line, transmitter, horizon);
    port.outFifo := q;
    port.InterruptHandler(Some(id));
  }

  /** Data available, and the transmitter not empty. */
  const RECEIVE_ONLY: Byte := 0x04

  /** A line on which a single 'J' arrives. */
  function OneByte(t: nat): (look: Look) {
    if t == 0 then Status(true, false, Some(0x4A)) else StatusFails
  }

  lemma {:induction false} OneByteIsLast(j: nat, id: Byte)
    requires 0 < j
    ensures LastTaken(OneByte, 0, j, id) == 0x4A && Arrivals(OneByte, 0, j) == [0x4A]
  {
    if 1 < j {
      OneByteIsLast(j - 1, id);
    } else {
      assert Arrivals(OneByte, 0, 0) == [];
    }
  }

  /** The drain that the interrupt starts takes the 'J', whose bit 1 asks for a byte to be sent; the id does not. */
  lemma ReceiveInterruptAsksToSend(to: nat)
    requires DrainsTo(OneByte, 0, to)
    ensures HasBit(RECEIVE_ONLY, IIR_RECV_DATA_AVAIL) && !HasBit(RECEIVE_ONLY, IIR_TRNSMT_EMPTY)
    ensures to == 16 && HasBit(LastTaken(OneByte, 0, to, RECEIVE_ONLY), IIR_TRNSMT_EMPTY)
  {
    OneByteIsLast(to, RECEIVE_ONLY);
    assert !OneByte(0).Quiet();
    assert to > 16 ==> Drained(OneByte, 16);
    assert HasBit(0x4A, 1) == HasBit(0x25, 0) && HasBit(0x04, 1) == HasBit(0x02, 0);
    assert HasBit(0x04, 2) == HasBit(0x02, 1) == HasBit(0x01, 0);
  }

  /** So a queued byte goes out on an interrupt that only announces data. */
  method SendOnReceive(b: Byte) returns (port: Port)
    ensures port.line == OneByte && port.inFifo == [0x4A]
    ensures port.outFifo == [] && port.offered == port.wire == [b]
  {
    port := new Port(OneByte, _ => true, 1);
    port.outFifo := [b];
    port.InterruptHandler(Some(RECEIVE_ONLY));
    ReceiveInterruptAsksToSend(port.looks);
    OneByteIsLast(port.looks, RECEIVE_ONLY);
  }
}
