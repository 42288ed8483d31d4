/** The lab4/lab4.c event loops: interrupts in, decoded packets and gestures out. */
module MouseDriver {
  import opened Bytes
  import opened MousePacket
  import opened PacketFraming
  import opened Gesture
  import opened GestureRuns
  import opened GestureTheorems
  import opened GestureCompleteness
  import opened GestureBounds

  /** `mouse_test_packet`: stops at the interrupt that completes packet number cnt, or when no more interrupts come. */
  method MouseTestPacket(cnt: nat, evs: seq<Interrupt>) returns (printed: seq<Packet>, used: nat)
    ensures used <= |evs| && printed == Decode(evs, used)
    ensures |printed| <= cnt && (used < |evs| ==> |printed| == cnt)
    ensures forall k: nat | k < used :: |Decode(evs, k)| < cnt
  {
    var asm := new Assembler();
    printed, used := [], 0;
    while |printed| < cnt && used < |evs|
      invariant used <= |evs| && printed == Decode(evs, used) && |printed| <= cnt
      invariant asm.Valid() && asm.Stored() == Assemble(evs, used).stored && fresh(asm) && fresh(asm.storage)
      invariant forall k: nat | k < used :: |Decode(evs, k)| < cnt
    {
      var pkt := asm.Feed(evs[used], Assemble(evs, used), used);
      printed := printed + pkt;
      used := used + 1;
    }
  }

  /** `result` as the loop tests it: the phase, but only once a packet has been handled. */
  function Result(r: Trace): (result: Phase)
    requires |r.ps| < |r.ss|
  {
    if r.ps == [] then Initial else r.ss[|r.ps|].phase
  }

  /**
   * One interrupt before the exit: the assembler takes the byte and, when that completes a packet, the recogniser
   * takes the packet.
   */
  method OnInterrupt(m: Machine, asm: Assembler, cfg: Config, evs: seq<Interrupt>, n: nat, last: Phase,
                     ghost s: Tracker, ghost r: Trace)
    returns (result: Phase, ghost q: Trace)
    requires n < |evs| && last != Exit && asm.Valid() && asm.Stored() == Assemble(evs, n).stored
    requires r.ValidFrom(s, Bits32, cfg) && r.ps == Decode(evs, n)
    requires m.State() == r.ss[|r.ps|] && last == Result(r)
    modifies m, asm`counter, asm.storage
    ensures asm.Valid() && asm.Stored() == Assemble(evs, n + 1).stored
    ensures q.ValidFrom(s, Bits32, cfg) && q.ps == Decode(evs, n + 1) && r.ps <= q.ps && r.ss <= q.ss
    ensures m.State() == q.ss[|q.ps|] && result == Result(q)
    ensures |q.ps| <= |r.ps| + 1
  {
    result, q := last, r;
    var pkt := asm.Feed(evs[n], Assemble(evs, n), n);
    assert Decode(evs, n + 1) == r.ps + pkt;
    if |pkt| == 1 {
      q := OneMorePacket(Bits32, cfg, s, r, pkt[0]);
      result := m.HandleMouseEvent(cfg, pkt[0]);
    }
  }

  /**
   * `mouse_test_gesture`: handles packets until the recogniser exits, or until no more interrupts come. The run it
   * makes is the ghost result.
   */
  method MouseTestGesture(m: Machine, cfg: Config, evs: seq<Interrupt>)
    returns (result: Phase, used: nat, ghost r: Trace)
    modifies m
    ensures used <= |evs|
    ensures r.ValidFrom(Initialised(old(m.State())), Bits32, cfg) && r.ps == Decode(evs, used)
    ensures m.State() == r.ss[|r.ps|] && result == Result(r)
    ensures used < |evs| ==> result == Exit
    ensures forall k | 0 < k < |r.ps| :: r.ss[k].phase != Exit
    ensures Unbegun(old(m.State())) && result == Exit ==> exists g: Legs :: DrawsInvertedV(cfg, r, g)
  {
    var asm := new Assembler();
    ghost var s := Initialised(m.State());
    m.InitData();
    result, used, r := Initial, 0, Trace([], [s], [0]);
    while result != Exit && used < |evs|
      invariant used <= |evs| && r.ValidFrom(s, Bits32, cfg) && r.ps == Decode(evs, used)
      invariant m.State() == r.ss[|r.ps|] && result == Result(r)
      invariant asm.Valid() && asm.Stored() == Assemble(evs, used).stored && fresh(asm) && fresh(asm.storage)
      invariant forall k | 0 < k < |r.ps| :: r.ss[k].phase != Exit
    {
      result, r := OnInterrupt(m, asm, cfg, evs, used, result, s, r);
      used := used + 1;
    }
    if Unbegun(s) && result == Exit {
      MachineAcceptsOnlyGestures(cfg, r, |r.ps|);
    }
  }

  function Frames(ps: seq<Packet>): (ts: seq<seq<Byte>>)
    requires OnTheWire(ps)
    ensures AllFramed(ts) && AllTriples(ts)
  {
    seq(|ps|, i requires 0 <= i < |ps| => ps[i].raw)
  }

  /** Framing and decoding together invert the device: every sequence of reports comes back from its byte stream. */
  lemma WireRoundTrip(ps: seq<Packet>)
    requires OnTheWire(ps)
    ensures var evs := Wire(Frames(ps)); Decode(evs, |evs|) == ps
  {
    var ts := Frames(ps);
    var evs := Wire(ts);
    FramingRoundTrip(ts);
    assert Decode(evs, |evs|) == ParseAll(ts);
    forall i | 0 <= i < |ps|
      ensures ParseAll(ts)[i] == ps[i]
    {
      DecodeInvertsEncode(ps[i]);
    }
  }

  /** The session is fed this byte stream. */
  predicate Reads(q: Trace, evs: seq<Interrupt>) {
    q.ps == Decode(evs, |evs|)
  }

  predicate InPhase(q: Trace, n: int, phase: Phase) {
    0 <= n < |q.ss| && q.ss[n].phase == phase
  }

  /** Completeness of the 32-bit machine: from the initial phase, a gesture drawn in one go ends in the exit phase. */
  lemma MachineAcceptsGestures(cfg: Config, q: Trace, g: Legs)
    requires q.Valid(Bits32, cfg) && WindowFits(q.ss[0])
    requires InPhase(q, g.left - 1, Initial) && DrawnInOneGo(cfg, q.ps, g)
    ensures InPhase(q, g.exit, Exit)
  {
    var r := OnIntegers(cfg, q);
    GestureCompletes(cfg, r, g);
  }

  /** The whole pipeline: from the initial phase, the bytes of a gesture drawn in one go drive a session to the exit. */
  lemma DrawnGestureIsRecognised(cfg: Config, ps: seq<Packet>, g: Legs, q: Trace)
    requires OnTheWire(ps) && q.Valid(Bits32, cfg) && WindowFits(q.ss[0]) && Reads(q, Wire(Frames(ps)))
    requires InPhase(q, g.left - 1, Initial) && DrawnInOneGo(cfg, ps, g)
    ensures InPhase(q, g.exit, Exit)
  {
    WireRoundTrip(ps);
    MachineAcceptsGestures(cfg, q, g);
  }

  /** For every tolerance and length there is a byte stream that a first session takes for a gesture. */
  lemma EveryConfigCanExit(cfg: Config) returns (evs: seq<Interrupt>, q: Trace)
    ensures q.ValidFrom(Initialised(START), Bits32, cfg) && Reads(q, evs) && Result(q) == Exit
  {
    var ps := SmallGesture(cfg);
    evs := Wire(Frames(ps));
    WireRoundTrip(ps);
    GestureExists(cfg);
    q := RunExists(Bits32, cfg, Initialised(START), ps);
    DrawnGestureIsRecognised(cfg, ps, SmallLegs(cfg), q);
  }
}
