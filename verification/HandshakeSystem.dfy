/** Two peers, one wire in each direction: every run with losses, timeouts and restarts. */
module HandshakeSystem {
  import opened Bytes
  import opened Handshake

  datatype Side = A | B {
    function Other(): (other: Side) {
      if A? then B else A
    }
  }

  /** A peer and the bytes on their way to it. */
  datatype End = End(peer: Peer, wire: seq<Byte>) {
    /** Everything sent to the peer that it has not read, oldest first. */
    function Pending(): (bytes: seq<Byte>) {
      peer.inbox + wire
    }
  }

  datatype Net = Net(a: End, b: End) {
    function At(s: Side): (e: End) {
      if s.A? then a else b
    }

    function With(s: Side, e: End): (t: Net) {
      if s.A? then Net(e, b) else Net(a, e)
    }

    function InFlight(): (bytes: nat) {
      |a.Pending()| + |b.Pending()|
    }
  }

  /**
   * A poll is one `uart_sync`; when it cleans up it also reads what has reached the hardware by then. A byte arrives
   * when the interrupt handler queues it. A byte is lost on the line, by a line error, or by a send that timed out.
   */
  datatype Action = Poll(who: Side, drained: nat) | Arrive(who: Side) | Lose(who: Side, at: nat)

  predicate Enabled(n: Net, act: Action) {
    var e := n.At(act.who);
    match act
    case Poll(_, drained) =>
      e.peer.idx <= PASSWORD_SIZE && drained <= |e.wire| && (e.peer.state != Cleanup ==> drained == 0)
    case Arrive(_) => e.wire != []
    case Lose(_, at) => at < |e.wire|
  }

  function Apply(n: Net, act: Action): (t: Net)
    requires Enabled(n, act)
  {
    var who := act.who;
    var e := n.At(who);
    match act
    case Poll(_, drained) =>
      var (p, out) := Sync(e.peer);
      var o := n.At(who.Other());
      n.With(who, End(p, e.wire[drained..])).With(who.Other(), End(o.peer, o.wire + out))
    case Arrive(_) => n.With(who, End(e.peer.(inbox := e.peer.inbox + [e.wire[0]]), e.wire[1..]))
    case Lose(_, at) => n.With(who, End(e.peer, e.wire[..at] + e.wire[at + 1..]))
  }

  predicate Leads(n: Net, act: Action, t: Net) {
    Enabled(n, act) && t == Apply(n, act)
  }

  /** The actions of a run and the nets between them. */
  datatype Trace = Trace(acts: seq<Action>, ns: seq<Net>) {
    ghost predicate Valid() {
      && |ns| == |acts| + 1
      && forall i: nat | i < |acts| :: StepAt(i)
    }

    predicate StepAt(i: nat)
      requires |ns| == |acts| + 1 && i < |acts|
    {
      Leads(ns[i], acts[i], ns[i + 1])
    }
  }

  /** Power on: both peers about to clean up, nothing on the wires. */
  const POWER_ON := Net(End(FRESH, []), End(FRESH, []))

  // ----- The closed system ----------

  ghost predicate SoundEnd(e: End) {
    Sane(e.peer) && AllInAlphabet(e.peer.inbox) && AllInAlphabet(e.wire)
  }

  ghost predicate Sound(n: Net) {
    SoundEnd(n.a) && SoundEnd(n.b)
  }

  predicate Joins(n: Net, act: Action) {
    act.Poll? && n.At(act.who).peer.state == Cleanup
  }

  /** Every action keeps the index bounds and the alphabet, and only a join request adds to the bytes in flight. */
  lemma StepIsSound(n: Net, act: Action)
    requires Sound(n) && Enabled(n, act)
    ensures Sound(Apply(n, act))
    ensures Apply(n, act).InFlight() <= n.InFlight() + if Joins(n, act) then 1 else 0
  {
    if act.Poll? {
      SyncConserves(n.At(act.who).peer);
    }
  }

  /** The number of cleanups that have ended in a join request so far. */
  function JoinsSoFar(r: Trace, n: nat): (joins: nat)
    requires n <= |r.acts| < |r.ns|
  {
    if n == 0 then 0 else JoinsSoFar(r, n - 1) + if Joins(r.ns[n - 1], r.acts[n - 1]) then 1 else 0
  }

  /**
   * The closed-system invariant, with losses, timeouts and restarts: only known bytes travel, no index leaves its
   * string, and no more bytes are in flight than join requests were made.
   */
  lemma {:induction false} ClosedSystem(r: Trace, n: nat)
    requires r.Valid() && n <= |r.acts| && r.ns[0] == POWER_ON
    ensures Sound(r.ns[n])
    ensures r.ns[n].InFlight() <= JoinsSoFar(r, n)
  {
    if n > 0 {
      ClosedSystem(r, n - 1);
      assert r.StepAt(n - 1);
      StepIsSound(r.ns[n - 1], r.acts[n - 1]);
    }
  }

  /** So in every reachable net every peer may be polled: no string is ever read past its end. */
  lemma PollAlwaysPossible(r: Trace, n: nat, who: Side)
    requires r.Valid() && n <= |r.acts| && r.ns[0] == POWER_ON
    ensures Enabled(r.ns[n], Poll(who, 0))
  {
    ClosedSystem(r, n);
  }
}
