/** Two endpoints whose lines carry what the other one sends: every turn of theirs is a part of a two-peer run. */
module NetworkPair {
  import opened Bytes
  import opened Uart
  import opened Handshake
  import opened HandshakeSystem
  import opened NetworkPeer

  /** The bytes that arrive, when `fate` says of each byte of w in turn whether it does; the others are lost. */
  function Kept(w: seq<Byte>, fate: seq<bool>): (arriving: seq<Byte>)
    requires |fate| <= |w|
  {
    if fate == [] then [] else (if fate[0] then [w[0]] else []) + Kept(w[1..], fate[1..])
  }

  /** What the looks from i to j receive is the beginning of w, less what was lost. */
  ghost predicate FedFrom(line: Line, i: nat, j: nat, w: seq<Byte>) {
    exists fate: seq<bool> :: |fate| <= |w| && Arrivals(line, i, j) == Kept(w, fate)
  }

  function Last(r: Trace): (n: Net)
    requires r.ns != []
  {
    r.ns[|r.ns| - 1]
  }

  lemma OneMoreAction(r: Trace, act: Action) returns (q: Trace)
    requires r.Valid() && Enabled(Last(r), act)
    ensures q.Valid() && q.acts == r.acts + [act] && q.ns == r.ns + [Apply(Last(r), act)]
  {
    q := Trace(r.acts + [act], r.ns + [Apply(Last(r), act)]);
    forall i: nat | i < |q.acts|
      ensures q.StepAt(i)
    {
      assert i < |r.acts| ==> r.StepAt(i);
    }
  }

  /** The run goes on from r to q. */
  predicate Continues(r: Trace, q: Trace) {
    r.acts <= q.acts && r.ns <= q.ns
  }

  /** The first byte on the wire arrives, or is lost. */
  function Fate(who: Side, arrives: bool): (act: Action) {
    if arrives then Arrive(who) else Lose(who, 0)
  }

  function Shifted(e: End, arrives: bool): (e': End)
    requires e.wire != []
  {
    End(e.peer.(inbox := e.peer.inbox + if arrives then [e.wire[0]] else []), e.wire[1..])
  }

  lemma FateShifts(n: Net, who: Side, arrives: bool)
    requires n.At(who).wire != []
    ensures Enabled(n, Fate(who, arrives))
    ensures Apply(n, Fate(who, arrives)) == n.With(who, Shifted(n.At(who), arrives))
  {
    var e := n.At(who);
    assert e.wire[..0] + e.wire[1..] == e.wire[1..];
    assert e.peer.inbox + [] == e.peer.inbox;
  }

  function Delivered(e: End, fate: seq<bool>): (e': End)
    requires |fate| <= |e.wire|
  {
    End(e.peer.(inbox := e.peer.inbox + Kept(e.wire, fate)), e.wire[|fate|..])
  }

  lemma DeliveredOn(e: End, fate: seq<bool>)
    requires 0 < |fate| <= |e.wire|
    ensures Delivered(Shifted(e, fate[0]), fate[1..]) == Delivered(e, fate)
  {
    var first := if fate[0] then [e.wire[0]] else [];
    assert (e.peer.inbox + first) + Kept(e.wire[1..], fate[1..])
        == e.peer.inbox + (first + Kept(e.wire[1..], fate[1..]));
    assert e.wire[1..][|fate| - 1..] == e.wire[|fate|..];
  }

  /** Bytes arrive or are lost one by one. */
  lemma {:induction false} Deliver(r: Trace, who: Side, fate: seq<bool>) returns (q: Trace)
    requires r.Valid() && |fate| <= |Last(r).At(who).wire|
    ensures q.Valid() && Continues(r, q) && Last(q) == Last(r).With(who, Delivered(Last(r).At(who), fate))
    decreases |fate|
  {
    var e := Last(r).At(who);
    if fate == [] {
      q := r;
      assert Delivered(e, fate) == e;
    } else {
      FateShifts(Last(r), who, fate[0]);
      var s := OneMoreAction(r, Fate(who, fate[0]));
      q := Deliver(s, who, fate[1..]);
      DeliveredOn(e, fate);
    }
  }

  /** The wire to a peer holds the last of the bytes that the other one has offered. */
  predicate CarriesLastOf(wire: seq<Byte>, offered: seq<Byte>) {
    |wire| <= |offered| && wire == offered[|offered| - |wire|..]
  }

  lemma CarriesOn(wire: seq<Byte>, offered: seq<Byte>, out: seq<Byte>, drained: nat)
    requires CarriesLastOf(wire, offered) && drained <= |wire|
    ensures CarriesLastOf(wire + out, offered + out) && CarriesLastOf(wire[drained..], offered)
  {
  }

  /** The endpoint is at its end of the net, and so is what it has sent. */
  ghost predicate Mirrors(e: Endpoint, n: Net, who: Side)
    reads e, e.port
  {
    && e.Valid() && (e.state == Cleanup ==> e.tries == 0) && e.port.outFifo == []
    && n.At(who).peer == e.View() && CarriesLastOf(n.At(who.Other()).wire, e.port.offered)
  }

  /** The two endpoints have come to the end of this run from power on. */
  ghost predicate Talk(e: Endpoint, o: Endpoint, who: Side, r: Trace)
    reads e, e.port, o, o.port
  {
    && e != o && e.port != o.port && r.Valid() && r.ns[0] == POWER_ON
    && Mirrors(e, Last(r), who) && Mirrors(o, Last(r), who.Other())
  }

  /** At power on. */
  lemma TalkBegins(e: Endpoint, o: Endpoint, who: Side)
    requires e != o && e.port != o.port && Mirrors(e, POWER_ON, who) && Mirrors(o, POWER_ON, who.Other())
    ensures Talk(e, o, who, Trace([], [POWER_ON]))
  {
  }

  /** Deliveries at the end of a run from power on: the other end, and both peers' places, stay. */
  lemma DeliverOn(r: Trace, who: Side, fate: seq<bool>) returns (q: Trace)
    requires r.Valid() && r.ns[0] == POWER_ON && |fate| <= |Last(r).At(who).wire|
    ensures q.Valid() && q.ns[0] == POWER_ON && Continues(r, q)
    ensures Last(q).At(who) == Delivered(Last(r).At(who), fate)
    ensures Last(q).At(who.Other()) == Last(r).At(who.Other())
  {
    q := Deliver(r, who, fate);
  }

  /** An interrupt at one endpoint lets bytes arrive, and others be lost. */
  method Interrupted(e: Endpoint, o: Endpoint, who: Side, iir: Option<Byte>, ghost r: Trace) returns (ghost q: Trace)
    requires Talk(e, o, who, r)
    modifies e.port
    ensures FedFrom(e.port.line, old(e.port.looks), e.port.looks, Last(r).At(who).wire) ==>
              Continues(r, q) && Talk(e, o, who, q)
  {
    ghost var from := e.port.looks;
    e.port.InterruptHandler(iir);
    q := r;
    if FedFrom(e.port.line, from, e.port.looks, Last(r).At(who).wire) {
      ghost var fate: seq<bool> :| |fate| <= |Last(r).At(who).wire|
        && Arrivals(e.port.line, from, e.port.looks) == Kept(Last(r).At(who).wire, fate);
      q := DeliverOn(r, who, fate);
      CarriesOn(Last(r).At(who).wire, o.port.offered, [], |fate|);
    }
  }

  /** A poll at the end of a run from power on: what it does to the net, and that no index leaves its string. */
  lemma PollOn(r: Trace, who: Side, drained: nat) returns (q: Trace)
    requires r.Valid() && r.ns[0] == POWER_ON && Enabled(Last(r), Poll(who, drained))
    ensures q.Valid() && q.ns[0] == POWER_ON && Continues(r, q)
    ensures var (p, out) := Sync(Last(r).At(who).peer);
            && p.idx <= PASSWORD_SIZE && Last(q).At(who) == End(p, Last(r).At(who).wire[drained..])
            && Last(q).At(who.Other()) == End(Last(r).At(who.Other()).peer, Last(r).At(who.Other()).wire + out)
  {
    q := OneMoreAction(r, Poll(who, drained));
    ClosedSystem(q, |q.acts|);
  }

  /** A call of `uart_sync` at one endpoint is a poll; a cleanup reads what reaches the hardware meanwhile. */
  method Polled(e: Endpoint, o: Endpoint, who: Side, ghost r: Trace) returns (ghost q: Trace)
    requires Talk(e, o, who, r)
    modifies e`state, e`idx, e`tries, e.port
    ensures FedFrom(e.port.line, old(e.port.looks), e.port.looks, Last(r).At(who).wire) ==>
              Continues(r, q) && Talk(e, o, who, q)
  {
    ghost var from, p, sent := e.port.looks, e.View(), e.port.offered;
    ghost var n := Last(r);
    CleanupHasNoTries(p);
    e.UartSync();
    q := r;
    if FedFrom(e.port.line, from, e.port.looks, n.At(who).wire) {
      ghost var drained: nat := 0;
      if p.state == Cleanup {
        ghost var fate: seq<bool> :| |fate| <= |n.At(who).wire|
          && Arrivals(e.port.line, from, e.port.looks) == Kept(n.At(who).wire, fate);
        drained := |fate|;
      }
      q := PollOn(r, who, drained);
      CarriesOn(n.At(who.Other()).wire, sent, Sync(p).1, 0);
      CarriesOn(n.At(who).wire, o.port.offered, [], drained);
    }
  }
}
