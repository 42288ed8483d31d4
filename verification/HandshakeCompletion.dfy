/** The handshake without losses and timeouts: every interleaving of polls ends with both peers connected. */
module HandshakeCompletion {
  import opened Bytes
  import opened Handshake
  import opened HandshakeSystem

  /** Deliveries a complete handshake takes. */
  const LAST: nat := 23

  /** The byte in flight after k deliveries; the even ones go to the responder, who got the join request. */
  function Message(k: nat): (b: Byte)
    requires k < LAST
  {
    if k == 0 then JOIN_REQUEST
    else if k == 12 then GET_RESPONSE
    else if k < 12 then (if k % 2 == 1 then ACK else PASSWORD[k / 2 - 1])
    else (if k % 2 == 0 then ACK else RESPONSE[(k - 13) / 2])
  }

  /** The script, as the characters that travel. */
  lemma MessagesSpell(k: nat)
    requires k < 23
    ensures Message(k) == "JOSOTOAOROTOPBOEOGOIONO"[k] as int
  {
    if 0 < k < 12 && k % 2 == 0 {
      assert k / 2 - 1 == 0 || k / 2 - 1 == 1 || k / 2 - 1 == 2 || k / 2 - 1 == 3 || k / 2 - 1 == 4;
    }
    if 12 < k && k % 2 == 1 {
      var i := (k - 13) / 2;
      assert i == 0 || i == 1 || i == 2 || i == 3 || i == 4;
    }
  }

  function Tail(k: nat): (bytes: seq<Byte>) {
    if k < LAST then [Message(k)] else []
  }

  /** State and index of the peer that sent the join request, after k deliveries. */
  function Initiator(k: nat): (r: (NetState, nat)) {
    var m := k / 2;
    if m < 6 then (Waiting, m) else (if m < 11 then Linked else Connected, m - 6)
  }

  /** State and index of the peer that received it. */
  function Responder(k: nat): (r: (NetState, nat)) {
    var m := (k + 1) / 2;
    if m == 0 then (Waiting, 0)
    else if m < 6 then (Waiting, m - 1)
    else if m < 12 then (Linked, m - 6)
    else (Connected, PASSWORD_SIZE)
  }

  /** Who reads next, where the reader and the other peer are, and the byte in flight, if any. */
  datatype Stage = Stage(reader: Side, reading: (NetState, nat), other: (NetState, nat), tail: seq<Byte>) {
    predicate WellFormed() {
      && |tail| <= 1 && reading.1 <= PASSWORD_SIZE && other.1 <= PASSWORD_SIZE
      && (tail != [] ==> reading.0 == Waiting || reading.0 == Linked)
    }

    /** The reader reads the byte and the other peer is next. */
    function Next(): (st: Stage)
      requires WellFormed() && tail != []
    {
      var (state, idx, out) := Handled(reading, tail[0]);
      Stage(reader.Other(), other, (state, idx), out)
    }
  }

  predicate EndAt(e: End, role: (NetState, nat), pending: seq<Byte>) {
    (e.peer.state, e.peer.idx) == role && e.Pending() == pending
  }

  /** The net is at the stage: nothing is in flight but its byte, which may be on the wire or queued. */
  predicate AtStage(n: Net, st: Stage) {
    EndAt(n.At(st.reader), st.reading, st.tail) && EndAt(n.At(st.reader.Other()), st.other, [])
  }

  /** The stage after k deliveries, in closed form. */
  function StageOf(responder: Side, k: nat): (st: Stage) {
    if k % 2 == 0 then Stage(responder, Responder(k), Initiator(k), Tail(k))
    else Stage(responder.Other(), Initiator(k), Responder(k), Tail(k))
  }

  /** The first half of the script, in which both peers link. */
  lemma PasswordHalf(responder: Side, k: nat)
    requires k < 12
    ensures StageOf(responder, k).WellFormed() && StageOf(responder, k).Next() == StageOf(responder, k + 1)
  {
    if k % 2 == 0 {
      assert (k + 1) / 2 == k / 2 && (k + 2) / 2 == k / 2 + 1;
    } else {
      assert (k + 1) / 2 == (k + 2) / 2 == k / 2 + 1;
    }
  }

  /** The second half, in which both connect. */
  lemma ResponseHalf(responder: Side, k: nat)
    requires 12 <= k < LAST
    ensures StageOf(responder, k).WellFormed() && StageOf(responder, k).Next() == StageOf(responder, k + 1)
  {
    if k % 2 == 0 {
      assert (k + 1) / 2 == k / 2 && (k + 2) / 2 == k / 2 + 1;
    } else {
      assert (k + 1) / 2 == (k + 2) / 2 == k / 2 + 1;
    }
  }

  /** Stages that follow each other, one delivery at a time, until nothing is in flight. */
  ghost predicate IsScript(sts: seq<Stage>) {
    && |sts| == LAST + 1 && sts[LAST].tail == []
    && (forall k: nat | k <= LAST :: sts[k].WellFormed())
    && (forall k: nat | k < LAST :: sts[k].tail != [] && sts[k].Next() == sts[k + 1])
  }

  function Script(responder: Side): (sts: seq<Stage>)
    ensures |sts| == LAST + 1
    ensures forall k: nat | k <= LAST :: sts[k] == StageOf(responder, k)
  {
    seq(LAST + 1, k requires 0 <= k => StageOf(responder, k))
  }

  lemma ScriptIsScript(responder: Side)
    ensures IsScript(Script(responder))
  {
    forall k: nat | k < LAST
      ensures StageOf(responder, k).WellFormed() && StageOf(responder, k).tail != []
      ensures StageOf(responder, k).Next() == StageOf(responder, k + 1)
    {
      if k < 12 {
        PasswordHalf(responder, k);
      } else {
        ResponseHalf(responder, k);
      }
    }
  }

  /** One `uart_sync` with exactly one byte queued handles it, also when it falls through into the linked stage. */
  lemma SyncWithOne(p: Peer, b: Byte)
    requires p.idx <= PASSWORD_SIZE && p.inbox == [b] && (p.state == Waiting || p.state == Linked)
    ensures var (q, out) := Sync(p);
            ((q.state, q.idx, out) == Handled((p.state, p.idx), b)) && q.inbox == []
  {
    SyncReads(p);
  }

  /** One with nothing queued changes no state and sends nothing, unless it times out. */
  lemma SyncWithNone(p: Peer)
    requires p.idx <= PASSWORD_SIZE && p.inbox == [] && p.state != Cleanup
    ensures var (q, out) := Sync(p);
            out == [] && q.inbox == [] && (q.state == Cleanup || (q.state, q.idx) == (p.state, p.idx))
  {
    if p.state == Connected {
      ConnectedIsFinal(p);
    } else {
      SyncIdles(p);
    }
  }

  /** The action makes a peer read a byte. */
  predicate Delivers(n: Net, act: Action) {
    && act.Poll? && n.At(act.who).peer.inbox != []
    && (n.At(act.who).peer.state == Waiting || n.At(act.who).peer.state == Linked)
  }

  predicate NobodyStartsOver(n: Net) {
    n.a.peer.state != Cleanup && n.b.peer.state != Cleanup
  }

  /** A byte that arrives is still pending, and nobody has moved. */
  lemma ArrivalKeepsEnd(n: Net, act: Action, s: Side)
    requires act.Arrive? && Enabled(n, act)
    ensures var e, t := n.At(s), Apply(n, act).At(s);
            t.Pending() == e.Pending() && t.peer.state == e.peer.state && t.peer.idx == e.peer.idx
  {
    if s == act.who {
      var e := n.At(s);
      assert e.wire == [e.wire[0]] + e.wire[1..];
    }
  }

  lemma ArrivalKeepsStage(n: Net, st: Stage, act: Action)
    requires AtStage(n, st) && act.Arrive? && Enabled(n, act)
    ensures AtStage(Apply(n, act), st)
  {
    ArrivalKeepsEnd(n, act, st.reader);
    ArrivalKeepsEnd(n, act, st.reader.Other());
  }

  lemma IdlePollKeepsStage(n: Net, st: Stage, act: Action)
    requires AtStage(n, st) && act.Poll? && Enabled(n, act) && !Delivers(n, act)
    requires NobodyStartsOver(n) && NobodyStartsOver(Apply(n, act))
    ensures AtStage(Apply(n, act), st)
  {
    var p := n.At(act.who).peer;
    if p.inbox == [] {
      SyncWithNone(p);
    } else {
      ConnectedIsFinal(p);
    }
    assert n.At(act.who.Other()).wire + [] == n.At(act.who.Other()).wire;
  }

  /** Reading a byte takes the net to the next stage. */
  lemma DeliveryAdvances(n: Net, st: Stage, act: Action)
    requires AtStage(n, st) && st.WellFormed() && Delivers(n, act) && Enabled(n, act)
    ensures st.tail != [] && AtStage(Apply(n, act), st.Next())
  {
    var e := n.At(act.who);
    assert act.who == st.reader && st.tail != [] by {
      assert e.Pending()[0] == e.peer.inbox[0];
    }
    assert e.peer.inbox == st.tail && e.wire == [] by {
      assert |e.peer.inbox| + |e.wire| == 1;
    }
    SyncWithOne(e.peer, st.tail[0]);
  }

  /** In a run without losses and timeouts every step stays at a stage or takes it to the next. */
  lemma StageStep(n: Net, st: Stage, act: Action, t: Net)
    requires Leads(n, act, t) && !act.Lose? && NobodyStartsOver(n) && NobodyStartsOver(t)
    requires AtStage(n, st) && st.WellFormed()
    ensures if Delivers(n, act) then st.tail != [] && AtStage(t, st.Next()) else AtStage(t, st)
  {
    if act.Arrive? {
      ArrivalKeepsStage(n, st, act);
    } else if Delivers(n, act) {
      DeliveryAdvances(n, st, act);
    } else {
      IdlePollKeepsStage(n, st, act);
    }
  }

  function DeliveriesSoFar(r: Trace, n: nat): (deliveries: nat)
    requires n <= |r.acts| < |r.ns|
  {
    if n == 0 then 0 else DeliveriesSoFar(r, n - 1) + if Delivers(r.ns[n - 1], r.acts[n - 1]) then 1 else 0
  }

  /** Nothing was lost and nobody timed out in the first n steps. */
  ghost predicate Smooth(r: Trace, n: nat)
    requires n <= |r.acts| < |r.ns|
  {
    && (forall i | 0 <= i < n :: !r.acts[i].Lose?)
    && (forall i | 0 <= i <= n :: NobodyStartsOver(r.ns[i]))
  }

  lemma RunStep(r: Trace, st: Stage, i: nat)
    requires r.Valid() && i < |r.acts| && !r.acts[i].Lose?
    requires NobodyStartsOver(r.ns[i]) && NobodyStartsOver(r.ns[i + 1])
    requires AtStage(r.ns[i], st) && st.WellFormed()
    ensures if Delivers(r.ns[i], r.acts[i]) then st.tail != [] && AtStage(r.ns[i + 1], st.Next())
            else AtStage(r.ns[i + 1], st)
  {
    assert r.StepAt(i);
    StageStep(r.ns[i], st, r.acts[i], r.ns[i + 1]);
  }

  /** A join request on its way from a peer that has just cleaned up to one that waits anywhere in the word. */
  function RestartOf(responder: Side, i: nat): (st: Stage) {
    Stage(responder, (Waiting, i), (Waiting, 0), [JOIN_REQUEST])
  }

  /** The stages that follow it. */
  function ScriptFrom(responder: Side, i: nat): (sts: seq<Stage>)
    ensures |sts| == LAST + 1 && sts[0] == RestartOf(responder, i)
    ensures forall k: nat | 0 < k <= LAST :: sts[k] == StageOf(responder, k)
  {
    Script(responder)[0 := RestartOf(responder, i)]
  }

  /** Wherever the responder waits, reading the join request takes it to the same stage. */
  lemma RestartJoins(responder: Side, i: nat)
    requires i <= PASSWORD_SIZE
    ensures RestartOf(responder, i).WellFormed() && RestartOf(responder, i).Next() == StageOf(responder, 1)
    ensures RestartOf(responder, 0) == StageOf(responder, 0)
  {
  }

  lemma ScriptFromIsScript(responder: Side, i: nat)
    requires i <= PASSWORD_SIZE
    ensures IsScript(ScriptFrom(responder, i))
  {
    ScriptIsScript(responder);
    RestartJoins(responder, i);
    var sts := ScriptFrom(responder, i);
    assert forall k: nat | 0 < k <= LAST :: sts[k] == Script(responder)[k];
  }

  /** In every interleaving the number of deliveries alone determines the stage. */
  lemma {:induction false} FollowsScript(r: Trace, sts: seq<Stage>, n: nat)
    requires r.Valid() && n <= |r.acts| && Smooth(r, n) && IsScript(sts) && AtStage(r.ns[0], sts[0])
    ensures DeliveriesSoFar(r, n) <= LAST && AtStage(r.ns[n], sts[DeliveriesSoFar(r, n)])
  {
    if n > 0 {
      FollowsScript(r, sts, n - 1);
      RunStep(r, sts[DeliveriesSoFar(r, n - 1)], n - 1);
    }
  }

  /**
   * Handshake completion: from a single join request to a peer that waits anywhere in the word, after k deliveries,
   * however interleaved, the peers are at stage k of 23.
   */
  lemma HandshakeCompletes(r: Trace, responder: Side, i: nat, n: nat)
    requires r.Valid() && n <= |r.acts| && Smooth(r, n)
    requires i <= PASSWORD_SIZE && AtStage(r.ns[0], RestartOf(responder, i))
    ensures DeliveriesSoFar(r, n) <= LAST && AtStage(r.ns[n], ScriptFrom(responder, i)[DeliveriesSoFar(r, n)])
  {
    ScriptFromIsScript(responder, i);
    FollowsScript(r, ScriptFrom(responder, i), n);
  }

  predicate Agrees(n: Net, k: nat) {
    && k <= LAST && n.InFlight() == (if k < LAST then 1 else 0)
    && (k == LAST <==> n.a.peer.state == Connected && n.b.peer.state == Connected)
    && (n.a.peer.state == Connected ==> n.b.peer.state == Linked || n.b.peer.state == Connected)
    && (n.b.peer.state == Connected ==> n.a.peer.state == Linked || n.a.peer.state == Connected)
  }

  lemma StageAgrees(n: Net, responder: Side, i: nat, k: nat)
    requires k <= LAST && AtStage(n, ScriptFrom(responder, i)[k])
    ensures Agrees(n, k)
  {
    if k > 0 {
      assert AtStage(n, StageOf(responder, k));
    }
  }

  /** Agreement: one byte is in flight until delivery 23 connects the second peer; nobody is connected alone before. */
  lemma HandshakeAgreement(r: Trace, responder: Side, i: nat, n: nat)
    requires r.Valid() && n <= |r.acts| && Smooth(r, n)
    requires i <= PASSWORD_SIZE && AtStage(r.ns[0], RestartOf(responder, i))
    ensures Agrees(r.ns[n], DeliveriesSoFar(r, n))
  {
    HandshakeCompletes(r, responder, i, n);
    StageAgrees(r.ns[n], responder, i, DeliveriesSoFar(r, n));
  }

  /** Until then a delivery is always at most two steps away: the byte arrives, and its receiver polls. */
  lemma DeliveryIsPossible(n: Net, st: Stage)
    requires AtStage(n, st) && st.WellFormed() && st.tail != []
    ensures var poll := Poll(st.reader, 0);
            || (Enabled(n, poll) && Delivers(n, poll))
            || (Enabled(n, Arrive(st.reader)) && Enabled(Apply(n, Arrive(st.reader)), poll)
                && Delivers(Apply(n, Arrive(st.reader)), poll))
  {
    var e := n.At(st.reader);
    if e.peer.inbox == [] {
      assert e.wire == st.tail;
    }
  }

  /** A run from power on to the starting point: the second peer to clean up discards the first one's join request. */
  lemma StartIsReachable(first: Side)
    ensures var n1 := Apply(POWER_ON, Poll(first, 0));
            Enabled(n1, Poll(first.Other(), 1)) && AtStage(Apply(n1, Poll(first.Other(), 1)), StageOf(first, 0))
  {
    var (p, out) := Sync(FRESH);
    assert p == Peer(Waiting, 0, 1, []) && out == [JOIN_REQUEST];
  }
}
