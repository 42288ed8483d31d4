/** Why completion asks for a single join request: two that cross leave both peers waiting for each other. */
module HandshakeStall {
  import opened Bytes
  import opened Handshake
  import opened HandshakeSystem
  import opened HandshakeCompletion

  /** Each peer is sent these bytes, whatever the interleaving: a join request, its acknowledgement and one letter. */
  const CROSSING: seq<Byte> := [JOIN_REQUEST, ACK, PASSWORD[0]]

  function Smaller(i: nat, j: nat): (smaller: nat) {
    if i < j then i else j
  }

  /** A peer that has read `mine` of the bytes, while the other one has read `theirs` of its own. */
  predicate CrossedEnd(e: End, mine: nat, theirs: nat) {
    && mine <= 1 + Smaller(theirs, 2)
    && EndAt(e, (Waiting, if mine < 2 then 0 else 1), CROSSING[mine..1 + Smaller(theirs, 2)])
  }

  predicate Crossed(n: Net, i: nat, j: nat) {
    CrossedEnd(n.a, i, j) && CrossedEnd(n.b, j, i)
  }

  /** Both peers wait, somewhere in the exchange of these bytes. */
  ghost predicate Stalling(n: Net) {
    && n.a.peer.state == Waiting && n.b.peer.state == Waiting
    && exists i: nat, j: nat :: Crossed(n, i, j)
  }

  /** One `uart_sync` that reads a byte and stays in the waiting state. */
  lemma SyncStaysWaiting(p: Peer)
    requires p.state == Waiting && p.idx <= PASSWORD_SIZE && p.inbox != []
    requires LinkByte(p.idx, p.inbox[0]).0 == Waiting
    ensures var r := LinkByte(p.idx, p.inbox[0]);
            Sync(p) == (Peer(Waiting, r.1, 0, p.inbox[1..]), r.2)
  {
    var none: seq<Byte> := [];
    var r := LinkByte(p.idx, p.inbox[0]);
    assert none + r.2 + none == r.2;
  }

  /** What a waiting peer answers to byte number k, and how the bytes sent to the other peer go on. */
  lemma CrossingReply(k: nat)
    requires k < 3
    ensures var r := LinkByte(if k < 2 then 0 else 1, CROSSING[k]);
            && r.0 == Waiting && r.1 == (if k + 1 < 2 then 0 else 1)
            && CROSSING[..1 + Smaller(k, 2)] + r.2 == CROSSING[..1 + Smaller(k + 1, 2)]
  {
    assert k == 0 || k == 1 || k == 2;
    assert CROSSING[0] == JOIN_REQUEST && CROSSING[1] == ACK && CROSSING[2] == PASSWORD[0];
  }

  /** What reading byte number `mine` does, and what it sends the other peer. */
  lemma ReadCrossing(e: End, mine: nat, theirs: nat)
    requires CrossedEnd(e, mine, theirs) && e.peer.inbox != []
    ensures mine < 3
    ensures var (p, out) := Sync(e.peer);
            && CrossedEnd(End(p, e.wire), mine + 1, theirs)
            && CROSSING[..1 + Smaller(mine, 2)] + out == CROSSING[..1 + Smaller(mine + 1, 2)]
  {
    assert e.Pending()[0] == e.peer.inbox[0];
    assert e.peer.inbox[0] == CROSSING[mine];
    CrossingReply(mine);
    SyncStaysWaiting(e.peer);
    assert e.peer.inbox[1..] + e.wire == e.Pending()[1..];
  }

  lemma SentCrossing(e: End, mine: nat, theirs: nat, out: seq<Byte>)
    requires CrossedEnd(e, mine, theirs)
    requires CROSSING[..1 + Smaller(theirs, 2)] + out == CROSSING[..1 + Smaller(theirs + 1, 2)]
    ensures CrossedEnd(End(e.peer, e.wire + out), mine, theirs + 1)
  {
    var s, t := CROSSING[..1 + Smaller(theirs, 2)], CROSSING[..1 + Smaller(theirs + 1, 2)];
    assert e.peer.inbox + (e.wire + out) == e.Pending() + out;
    assert e.Pending() == s[mine..];
    assert (s + out)[mine..] == s[mine..] + out;
    assert t[mine..] == CROSSING[mine..1 + Smaller(theirs + 1, 2)];
  }

  lemma PollCrossed(n: Net, i: nat, j: nat, act: Action)
    requires Crossed(n, i, j) && act.Poll? && Enabled(n, act) && NobodyStartsOver(Apply(n, act))
    ensures Stalling(Apply(n, act))
  {
    var who := act.who;
    var e, o := n.At(who), n.At(who.Other());
    if e.peer.inbox == [] {
      SyncWithNone(e.peer);
      assert o.wire + [] == o.wire;
      assert Crossed(Apply(n, act), i, j);
    } else if who.A? {
      ReadCrossing(e, i, j);
      SentCrossing(o, j, i, Sync(e.peer).1);
      assert Crossed(Apply(n, act), i + 1, j);
    } else {
      ReadCrossing(e, j, i);
      SentCrossing(o, i, j, Sync(e.peer).1);
      assert Crossed(Apply(n, act), i, j + 1);
    }
  }

  lemma ArriveCrossed(n: Net, i: nat, j: nat, act: Action)
    requires Crossed(n, i, j) && act.Arrive? && Enabled(n, act)
    ensures Stalling(Apply(n, act))
  {
    ArrivalKeepsEnd(n, act, A);
    ArrivalKeepsEnd(n, act, B);
    assert Crossed(Apply(n, act), i, j);
  }

  lemma StallStep(n: Net, act: Action, t: Net)
    requires Leads(n, act, t) && !act.Lose? && NobodyStartsOver(t) && Stalling(n)
    ensures Stalling(t)
  {
    var i: nat, j: nat :| Crossed(n, i, j);
    if act.Poll? {
      PollCrossed(n, i, j, act);
    } else {
      ArriveCrossed(n, i, j, act);
    }
  }

  /** Two peers, both waiting at the start of the word, each with the other's join request on the wire. */
  predicate JoinsCross(n: Net) {
    forall s: Side :: EndAt(n.At(s), (Waiting, 0), [JOIN_REQUEST])
  }

  /** Crossed join requests never link anybody: without a timeout both peers wait forever. */
  lemma {:induction false} CrossedJoinsStall(r: Trace, k: nat)
    requires r.Valid() && k <= |r.acts| && Smooth(r, k) && JoinsCross(r.ns[0])
    ensures Stalling(r.ns[k])
  {
    if k == 0 {
      assert EndAt(r.ns[0].At(A), (Waiting, 0), [JOIN_REQUEST]) && EndAt(r.ns[0].At(B), (Waiting, 0), [JOIN_REQUEST]);
      assert Crossed(r.ns[0], 0, 0);
    } else {
      CrossedJoinsStall(r, k - 1);
      assert r.StepAt(k - 1);
      StallStep(r.ns[k - 1], r.acts[k - 1], r.ns[k]);
    }
  }

  /** A run from power on to such a start: both peers clean up before either request has arrived. */
  lemma CrossingIsReachable(first: Side)
    ensures var n1 := Apply(POWER_ON, Poll(first, 0));
            Enabled(n1, Poll(first.Other(), 0)) && JoinsCross(Apply(n1, Poll(first.Other(), 0)))
  {
    var (p, out) := Sync(FRESH);
    assert p == Peer(Waiting, 0, 1, []) && out == [JOIN_REQUEST];
  }
}
