/** Packet assembly from interrupt bytes, as the lab4/lab4.c loops do it. */
module PacketFraming {
  import opened Bytes
  import opened MousePacket

  /** What one mouse interrupt leaves in `validByte` and `lastByte`. */
  datatype Interrupt = Invalid | Valid(b: Byte)

  /** The bytes stored so far, the triples completed, and the index of the interrupt each triple began with. */
  datatype Assembly = Assembly(stored: seq<Byte>, packets: seq<seq<Byte>>, starts: seq<int>)

  function Absorb(a: Assembly, ev: Interrupt, at: nat): (a': Assembly) {
    match ev
    case Invalid => a.(stored := [])
    case Valid(b) =>
      if a.stored == [] && !HasBit(b, MOUSE_FIRST_BIT) then a
      else if |a.stored| == 2 then Assembly([], a.packets + [a.stored + [b]], a.starts + [at - 2])
      else a.(stored := a.stored + [b])
  }

  /** The loop's state after the first n interrupts. */
  function Assemble(evs: seq<Interrupt>, n: nat): (a: Assembly)
    requires n <= |evs|
  {
    if n == 0 then Assembly([], [], []) else Absorb(Assemble(evs, n - 1), evs[n - 1], n - 1)
  }

  function Packets(evs: seq<Interrupt>): (packets: seq<seq<Byte>>) {
    Assemble(evs, |evs|).packets
  }

  predicate Framed(t: seq<Byte>) {
    IsTriple(t) && HasBit(t[0], MOUSE_FIRST_BIT)
  }

  predicate AllTriples(ts: seq<seq<Byte>>) {
    forall i | 0 <= i < |ts| :: IsTriple(ts[i])
  }

  predicate AllFramed(ts: seq<seq<Byte>>) {
    forall i | 0 <= i < |ts| :: Framed(ts[i])
  }

  /** The interrupts from i on delivered exactly these bytes. */
  predicate Delivered(evs: seq<Interrupt>, i: int, t: seq<Byte>) {
    0 <= i && i + |t| <= |evs| && forall k | 0 <= k < |t| :: evs[i + k] == Valid(t[k])
  }

  ghost predicate Sound(evs: seq<Interrupt>, n: nat, a: Assembly) {
    && n <= |evs| && |a.stored| <= 2 && |a.stored| <= n
    && (a.stored != [] ==> HasBit(a.stored[0], MOUSE_FIRST_BIT))
    && Delivered(evs, n - |a.stored|, a.stored)
    && |a.starts| == |a.packets|
    && (forall i | 0 <= i < |a.packets| :: Framed(a.packets[i]) && Delivered(evs, a.starts[i], a.packets[i]))
    && (forall i | 0 <= i < |a.packets| :: a.starts[i] + 3 <= n - |a.stored|)
    && (forall i, j | 0 <= i < j < |a.packets| :: a.starts[i] + 3 <= a.starts[j])
  }

  lemma AbsorbSound(evs: seq<Interrupt>, n: nat, a: Assembly)
    requires Sound(evs, n, a) && n < |evs|
    ensures Sound(evs, n + 1, Absorb(a, evs[n], n))
  {
    var a' := Absorb(a, evs[n], n);
    if |a'.packets| > |a.packets| {
      var t := a.stored + [evs[n].b];
      assert forall k | 0 <= k < |t| :: evs[n - 2 + k] == Valid(t[k]);
    }
  }

  /** For every stream the packets are ordered, disjoint, contiguous triples of valid bytes led by a sync bit. */
  lemma {:induction false} FramingIsSound(evs: seq<Interrupt>, n: nat)
    requires n <= |evs|
    ensures Sound(evs, n, Assemble(evs, n))
  {
    if n > 0 {
      FramingIsSound(evs, n - 1);
      AbsorbSound(evs, n - 1, Assemble(evs, n - 1));
    }
  }

  /** Nothing before a moment with no stored bytes influences what is assembled after it. */
  lemma {:induction false} FreshStart(a: seq<Interrupt>, b: seq<Interrupt>, n: nat)
    requires n <= |b| && Assemble(a, |a|).stored == []
    ensures Assemble(a + b, |a| + n).stored == Assemble(b, n).stored
    ensures Assemble(a + b, |a| + n).packets == Packets(a) + Assemble(b, n).packets
  {
    FramingIsSound(b, n);
    if n == 0 {
      PrefixOnly(a, b, |a|);
    } else {
      FreshStart(a, b, n - 1);
      FramingIsSound(b, n - 1);
      assert (a + b)[|a| + n - 1] == b[n - 1];
      FramingIsSound(a + b, |a| + n - 1);
    }
  }

  lemma {:induction false} PrefixOnly(a: seq<Interrupt>, b: seq<Interrupt>, n: nat)
    requires n <= |a|
    ensures Assemble(a + b, n) == Assemble(a, n)
  {
    if n > 0 {
      PrefixOnly(a, b, n - 1);
    }
  }

  /** Resynchronisation: an invalid byte separates the stream into two that are framed independently. */
  lemma InvalidResynchronises(a: seq<Interrupt>, b: seq<Interrupt>)
    ensures Packets(a + [Invalid] + b) == Packets(a) + Packets(b)
  {
    var a' := a + [Invalid];
    PrefixOnly(a, [Invalid], |a|);
    assert Assemble(a', |a'|) == Absorb(Assemble(a, |a|), Invalid, |a|);
    FreshStart(a', b, |b|);
  }

  /** What can begin a packet, by division. */
  lemma SyncByDivision(t: seq<Byte>)
    ensures Framed(t) <==> |t| == 3 && t[0] / 8 % 2 == 1
  {
    if |t| == 3 {
      LowBits(t[0]);
    }
  }

  lemma SkippedAlone(a: seq<Interrupt>, b: Byte)
    requires Assemble(a, |a|).stored == [] && !HasBit(b, MOUSE_FIRST_BIT)
    ensures Assemble(a + [Valid(b)], |a| + 1) == Assemble(a, |a|)
  {
    PrefixOnly(a, [Valid(b)], |a|);
  }

  /** A valid byte without the sync bit that finds nothing stored is skipped, and nothing else is lost with it. */
  lemma JunkIsSkipped(a: seq<Interrupt>, b: Byte, c: seq<Interrupt>)
    requires Assemble(a, |a|).stored == [] && !HasBit(b, MOUSE_FIRST_BIT)
    ensures Packets(a + [Valid(b)] + c) == Packets(a) + Packets(c)
  {
    SkippedAlone(a, b);
    FreshStart(a + [Valid(b)], c, |c|);
  }

  function Wire(ts: seq<seq<Byte>>): (evs: seq<Interrupt>)
    requires AllTriples(ts)
  {
    if ts == [] then []
    else
      var t := ts[|ts| - 1];
      Wire(ts[..|ts| - 1]) + [Valid(t[0]), Valid(t[1]), Valid(t[2])]
  }

  /** A stream of well-formed packets comes back exactly. */
  lemma {:induction false} FramingRoundTrip(ts: seq<seq<Byte>>)
    requires AllFramed(ts)
    ensures AllTriples(ts) && Packets(Wire(ts)) == ts && Assemble(Wire(ts), |Wire(ts)|).stored == []
  {
    if ts != [] {
      var front, t := ts[..|ts| - 1], ts[|ts| - 1];
      FramingRoundTrip(front);
      OneTriple(t);
      FreshStart(Wire(front), [Valid(t[0]), Valid(t[1]), Valid(t[2])], 3);
      assert ts == front + [t];
    }
  }

  lemma OneTriple(t: seq<Byte>)
    requires Framed(t)
    ensures Assemble([Valid(t[0]), Valid(t[1]), Valid(t[2])], 3).packets == [t]
    ensures Assemble([Valid(t[0]), Valid(t[1]), Valid(t[2])], 3).stored == []
  {
    var evs := [Valid(t[0]), Valid(t[1]), Valid(t[2])];
    assert Assemble(evs, 1) == Assembly([t[0]], [], []);
    assert Assemble(evs, 2) == Assembly([t[0], t[1]], [], []);
    assert [t[0], t[1]] + [t[2]] == t;
  }

  function ParseAll(ts: seq<seq<Byte>>): (ps: seq<Packet>)
    requires AllTriples(ts)
    ensures |ps| == |ts|
    ensures forall i | 0 <= i < |ts| :: ps[i] == ParsePacket(ts[i])
  {
    seq(|ts|, i requires 0 <= i < |ts| => ParsePacket(ts[i]))
  }

  /** The packets decoded from the first n interrupts. */
  function Decode(evs: seq<Interrupt>, n: nat): (ps: seq<Packet>)
    requires n <= |evs|
  {
    FramingIsSound(evs, n);
    ParseAll(Assemble(evs, n).packets)
  }

  /** Storage and counter of the loops: three bytes, of which the first `counter` are in use. */
  class Assembler {
    var storage: array<Byte>
    var counter: nat

    ghost predicate Valid()
      reads this
    {
      storage.Length == 3 && counter <= 2
    }

    ghost function Stored(): (bytes: seq<Byte>)
      requires Valid()
      reads this, storage
    {
      storage[..counter]
    }

    constructor ()
      ensures Valid() && Stored() == [] && fresh(storage)
    {
      storage := new Byte[3](_ => 0);
      counter := 0;
    }

    /** The part of the loop bodies between `mouse_ih` and the use of a packet; a full packet is returned parsed. */
    method Feed(ev: Interrupt, ghost a: Assembly, ghost at: nat) returns (pkt: seq<Packet>)
      requires Valid() && Stored() == a.stored
      modifies this`counter, storage
      ensures Valid() && Stored() == Absorb(a, ev, at).stored
      ensures var all := Absorb(a, ev, at).packets;
              if all == a.packets then pkt == []
              else |all| == |a.packets| + 1 && IsTriple(all[|a.packets|]) && pkt == [ParsePacket(all[|a.packets|])]
    {
      pkt := [];
      if ev.Invalid? {
        counter := 0;
        return;
      }
      if counter == 0 && !HasBit(ev.b, MOUSE_FIRST_BIT) {
        return;
      }
      storage[counter] := ev.b;
      counter := counter + 1;
      if counter == 3 {
        assert storage[..] == a.stored + [ev.b];
        pkt := [ParsePacket(storage[..])];
        counter := 0;
      }
    }
  }
}
