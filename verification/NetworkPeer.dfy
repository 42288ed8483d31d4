/** The handshake as the driver runs it: statics updated in place over a serial port. */
module NetworkPeer {
  import opened Bytes
  import opened Uart
  import opened Handshake

  /** Looks the last cleanup spent without seeing anything. */
  const CLEAN_LOOKS: nat := UART_MAX_TRIES * UART_MAX_TRIES

  class Endpoint {
    const port: Port
    var state: NetState
    var idx: nat
    var tries: nat

    constructor (port: Port)
      ensures this.port == port && state == Cleanup && idx == 0 && tries == 0
    {
      this.port := port;
      state, idx, tries := Cleanup, 0, 0;
    }

    ghost predicate Valid()
      reads this, port
    {
      port.Valid() && port.canSend && idx <= PASSWORD_SIZE
    }

    function View(): (peer: Peer)
      reads this, port
    {
      Peer(state, idx, tries, port.inFifo)
    }

    /** The sending idiom: directly when the transmitter is free, through the queue otherwise. */
    method Send(b: Byte)
      modifies port`transmitterLooks, port`wire, port`offered, port`outFifo
      ensures if port.canSend then port.offered == old(port.offered) + [b] && port.outFifo == old(port.outFifo)
              else port.offered == old(port.offered) && port.outFifo == old(port.outFifo) + [b]
    {
      var empty := port.TransmitterEmpty();
      if empty {
        var sent := port.SendByte(b);
      } else {
        port.outFifo := port.outFifo + [b];
      }
    }

    /** `uart_sync_link`. */
    method SyncLink() returns (got: bool)
      requires Valid()
      modifies this`state, this`idx, port
      ensures port.Valid() && port.canSend && port.looks == old(port.looks) && port.outFifo == old(port.outFifo)
      ensures got <==> old(port.inFifo) != []
      ensures if got
              then var (st, i, out) := LinkByte(old(idx), old(port.inFifo)[0]);
                   && idx == i && state == (if st == Linked then Linked else old(state))
                   && port.offered == old(port.offered) + out && port.inFifo == old(port.inFifo)[1..]
              else idx == old(idx) && state == old(state) && port.offered == old(port.offered) && port.inFifo == []
    {
      var byte;
      got, byte := port.RecvFront();
      if !got {
        return;
      }
      if byte == ACK {
        if idx == PASSWORD_SIZE {
          state := Linked;
          idx := 0;
          Send(GET_RESPONSE);
          return;
        }
        Send(Letter(PASSWORD, idx));
        idx := idx + 1;
      } else if byte == JOIN_REQUEST {
        port.EmptyTransmitQueue();
        Send(ACK);
        idx := 0;
      } else if byte == Letter(PASSWORD, idx) {
        Send(ACK);
        idx := idx + 1;
        if idx == PASSWORD_SIZE {
          state := Linked;
          idx := 0;
        }
      }
    }

    /** `uart_sync_connect`. */
    method SyncConnect() returns (got: bool)
      requires Valid()
      modifies this`state, this`idx, port
      ensures port.Valid() && port.canSend && port.looks == old(port.looks) && port.outFifo == old(port.outFifo)
      ensures got <==> old(port.inFifo) != []
      ensures if got
              then var (st, i, out) := ConnectByte(old(idx), old(port.inFifo)[0]);
                   && idx == i && state == (if st == Connected then Connected else old(state))
                   && port.offered == old(port.offered) + out && port.inFifo == old(port.inFifo)[1..]
              else idx == old(idx) && state == old(state) && port.offered == old(port.offered) && port.inFifo == []
    {
      var byte;
      got, byte := port.RecvFront();
      if !got {
        return;
      }
      if byte == ACK {
        if idx == PASSWORD_SIZE {
          state := Connected;
          return;
        }
        Send(Letter(RESPONSE, idx));
        idx := idx + 1;
      } else if byte == GET_RESPONSE {
        port.EmptyTransmitQueue();
        Send(RESPONSE[0]);
        idx := 1;
      } else if byte == Letter(RESPONSE, idx) {
        Send(ACK);
        idx := idx + 1;
        if idx == PASSWORD_SIZE {
          state := Connected;
        }
      }
    }

    /** `reset_sync`. */
    method ResetSync()
      modifies this`state, this`idx
      ensures state == Cleanup && idx == 0
    {
      state := Cleanup;
      idx := 0;
    }

    /** Reads the receive queue until it is empty. */
    method DiscardQueued() returns (clean: bool)
      requires port.Valid()
      modifies port`inFifo, port`handed
      ensures port.Valid() && port.inFifo == [] && (clean <==> old(port.inFifo) == [])
    {
      clean := true;
      var got, byte := port.RecvFront();
      while got
        invariant port.Valid() && (!got ==> port.inFifo == []) && (clean && !got ==> old(port.inFifo) == [])
        invariant !clean ==> old(port.inFifo) != []
        invariant got ==> old(port.inFifo) != []
        decreases got, |port.inFifo|
      {
        clean := false;
        got, byte := port.RecvFront();
      }
    }

    /** Reads the receiver until a `uart_receive_byte` finds nothing; what it reads goes no further. */
    method DiscardArriving() returns (clean: bool)
      requires port.Valid() && port.inFifo == []
      modifies port`looks, port`handed
      ensures port.Valid() && DrainsTo(port.line, old(port.looks), port.looks)
      ensures clean <==> port.looks == old(port.looks) + UART_MAX_TRIES
      ensures !clean ==> old(port.looks) < port.horizon
    {
      clean := true;
      ghost var from := port.looks;
      var code, byte := Ok, 0;
      while code != NoByte
        invariant from <= port.looks && (code != NoByte ==> port.looks == from || port.looks <= port.horizon)
        invariant code == NoByte ==> DrainsTo(port.line, from, port.looks)
        invariant code != NoByte ==> Draining(port.line, from, port.looks)
        invariant port.handed == old(port.handed) + Arrivals(port.line, from, port.looks)
        invariant clean ==> if code == NoByte then port.looks == from + UART_MAX_TRIES else port.looks == from
        invariant !clean ==> from < port.horizon && from < port.looks
        invariant !clean && code == NoByte ==> port.looks > from + UART_MAX_TRIES
        decreases if code == NoByte then 0 else if port.looks <= port.horizon then port.horizon - port.looks + 2 else 1
      {
        ghost var i := port.looks;
        code, byte := port.ReceiveByte(byte);
        if code == Ok {
          port.handed := port.handed + [byte];
        }
        if code != NoByte {
          clean := false;
        }
        DrainOn(port.line, from, i, port.looks);
      }
      ArrivalsOn(port.line, 0, from, port.looks);
    }

    /**
     * The nested drain loops of the cleanup: they end, with an empty queue, after fifteen rounds in a row that found
     * nothing, that is, after 225 looks in a row that were quiet.
     */
    method CleanUp()
      requires port.Valid() && tries == 0
      modifies this`tries, port`inFifo, port`looks, port`handed
      ensures port.Valid() && port.inFifo == [] && tries == UART_MAX_TRIES
      ensures port.looks >= old(port.looks) + CLEAN_LOOKS && CLEAN_LOOKS == 225
      ensures QuietBetween(port.line, port.looks - CLEAN_LOOKS, port.looks)
    {
      while tries < UART_MAX_TRIES
        invariant port.Valid() && tries <= UART_MAX_TRIES && (tries > 0 ==> port.inFifo == [])
        invariant port.looks >= old(port.looks) + UART_MAX_TRIES * tries
        invariant QuietBetween(port.line, port.looks - UART_MAX_TRIES * tries, port.looks)
        decreases |port.inFifo| + if port.looks < port.horizon then port.horizon - port.looks else 0,
                  UART_MAX_TRIES - tries
      {
        var queueClean := DiscardQueued();
        var lineClean := DiscardArriving();
        if queueClean && lineClean {
          tries := tries + 1;
        } else {
          tries := 0;
        }
      }
    }

    /** The waiting stage of `uart_sync`. */
    method WaitPoll()
      requires Valid() && state == Waiting
      modifies this`state, this`idx, this`tries, port
      ensures port.Valid() && port.canSend && port.looks == old(port.looks) && port.outFifo == old(port.outFifo)
      ensures var (p, out) := WaitStage(old(View())); View() == p && port.offered == old(port.offered) + out
    {
      var got := SyncLink();
      tries := if got then 0 else tries + 1;
      if tries > SYNC_TRIES {
        ResetSync();
        tries := 0;
      }
    }

    /** The linked stage of `uart_sync`. */
    method LinkPoll()
      requires Valid() && state == Linked
      modifies this`state, this`idx, this`tries, port
      ensures port.Valid() && port.canSend && port.looks == old(port.looks) && port.outFifo == old(port.outFifo)
      ensures var (p, out) := LinkStage(old(View())); View() == p && port.offered == old(port.offered) + out
    {
      var got := SyncConnect();
      tries := if got then 0 else tries + 1;
      if tries > SYNC_TRIES {
        ResetSync();
        tries := 0;
      }
    }

    /** `uart_sync`: every call does to the peer what the model says, and no receive order is lost. */
    method UartSync()
      requires Valid() && (state == Cleanup ==> tries == 0)
      modifies this`state, this`idx, this`tries, port
      ensures port.Valid() && port.canSend && port.outFifo == old(port.outFifo)
      ensures var (p, out) := Sync(old(View())); View() == p && port.offered == old(port.offered) + out
      ensures if old(state) == Cleanup
              then && port.looks >= old(port.looks) + CLEAN_LOOKS
                   && QuietBetween(port.line, port.looks - CLEAN_LOOKS, port.looks)
              else port.looks == old(port.looks)
    {
      if state == Cleanup {
        CleanUp();
        state := Waiting;
        Send(JOIN_REQUEST);
        tries := 0;
      }
      if state == Waiting {
        WaitPoll();
      }
      if state == Linked {
        LinkPoll();
      }
    }
  }

  // ----- Every sequence of activities ----------

  /** What can happen at a port: an interrupt, the application reading a byte, and a call of `uart_sync`. */
  datatype Activity = Signal(iir: Option<Byte>) | ReadFront | CallSync

  lemma CleanupHasNoTries(p: Peer)
    requires p.idx <= PASSWORD_SIZE && (p.state == Cleanup ==> p.tries == 0)
    ensures Sync(p).0.state == Cleanup ==> Sync(p).0.tries == 0
  {
  }

  /**
   * Under every sequence of activities, from power on, what was handed over and what is still queued are the bytes
   * received in good order, in the order of their arrival; without `uart_sync`, what the application read is exactly
   * what was handed over. Only a letter index that has left its string stops the sequence.
   */
  method Serve(line: Line, transmitter: nat -> bool, ghost horizon: nat, acts: seq<Activity>)
    returns (e: Endpoint, got: seq<Byte>, done: nat)
    requires forall t: nat | t >= horizon :: line(t).Quiet()
    ensures fresh(e) && e.port.line == line
    ensures e.port.handed + e.port.inFifo == Arrivals(line, 0, e.port.looks)
    ensures CallSync !in acts ==> got == e.port.handed
    ensures done <= |acts| && (done < |acts| ==> e.idx > PASSWORD_SIZE)
  {
    var port := new Port(line, transmitter, horizon);
    e := new Endpoint(port);
    got, done := [], 0;
    while done < |acts| && e.idx <= PASSWORD_SIZE
      invariant done <= |acts| && fresh(e) && fresh(e.port) && e.port.line == line
      invariant e.port.Valid() && e.port.canSend && (e.state == Cleanup ==> e.tries == 0)
      invariant CallSync !in acts ==> got == e.port.handed
    {
      match acts[done] {
        case Signal(iir) =>
          e.port.InterruptHandler(iir);
        case ReadFront =>
          var some, b := e.port.RecvFront();
          if some {
            got := got + [b];
          }
        case CallSync =>
          CleanupHasNoTries(e.View());
          e.UartSync();
      }
      done := done + 1;
    }
  }
}
