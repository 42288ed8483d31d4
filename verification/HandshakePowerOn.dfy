/** Two peers that power up: which runs connect them, and why the others never do without a timeout. */
module HandshakePowerOn {
  import opened Bytes
  import opened Handshake
  import opened HandshakeSystem
  import opened HandshakeCompletion
  import opened HandshakeStall

  /** In the first n steps nothing was lost, and nobody that had finished its cleanup returned to it. */
  ghost predicate Unbroken(r: Trace, n: nat)
    requires n <= |r.acts| < |r.ns|
  {
    && (forall i | 0 <= i < n :: !r.acts[i].Lose?)
    && (forall i: nat | i < n :: NobodyReturns(r.ns[i], r.ns[i + 1]))
  }

  predicate NobodyReturns(n: Net, t: Net) {
    && (t.a.peer.state == Cleanup ==> n.a.peer.state == Cleanup)
    && (t.b.peer.state == Cleanup ==> n.b.peer.state == Cleanup)
  }

  /** One peer waits with nothing to read; the other has not cleaned up and has been sent a join request. */
  predicate OneWaits(n: Net, first: Side) {
    && EndAt(n.At(first), (Waiting, 0), [])
    && EndAt(n.At(first.Other()), (Cleanup, 0), [JOIN_REQUEST])
  }

  /** The cleanup takes everything that has been sent to the peer. */
  predicate TakesAll(n: Net, act: Action) {
    act.Poll? && act.drained == |n.At(act.who).wire|
  }

  lemma FirstStep(act: Action, t: Net)
    requires Leads(POWER_ON, act, t)
    ensures act.Poll? && OneWaits(t, act.who)
  {
    SyncCleansUp(FRESH);
  }

  /** The second cleanup decides: it takes the first join request, or both requests are on their way. */
  lemma SecondCleanupDecides(n: Net, first: Side, act: Action, t: Net)
    requires Leads(n, act, t) && OneWaits(n, first) && act.Poll? && act.who == first.Other()
    ensures if TakesAll(n, act) then AtStage(t, StageOf(first, 0)) else JoinsCross(t)
  {
    var e, o := n.At(act.who), n.At(first);
    SyncCleansUp(e.peer);
    assert o.peer.inbox == [] && o.wire == [];
    assert |e.peer.inbox| + |e.wire| == 1;
    if !TakesAll(n, act) {
      assert e.peer.inbox == [] && e.wire == [JOIN_REQUEST] && e.wire[act.drained..] == [JOIN_REQUEST];
    }
  }

  /** Until then everything else changes nothing. */
  lemma OthersWait(n: Net, first: Side, act: Action, t: Net)
    requires Leads(n, act, t) && OneWaits(n, first) && !act.Lose? && NobodyReturns(n, t)
    requires !(act.Poll? && act.who == first.Other())
    ensures OneWaits(t, first) && !Delivers(n, act)
  {
    if act.Arrive? {
      ArrivalKeepsEnd(n, act, A);
      ArrivalKeepsEnd(n, act, B);
    } else {
      var o := n.At(first.Other());
      SyncWithNone(n.At(first).peer);
      assert o.wire + [] == o.wire;
    }
  }

  /** As long as a peer has still to clean up, the other one waits for it, and nobody has read anything. */
  lemma {:induction false} StillCleaning(r: Trace, n: nat)
    requires r.Valid() && 0 < n <= |r.acts| && r.ns[0] == POWER_ON && Unbroken(r, n)
    requires !NobodyStartsOver(r.ns[n])
    ensures OneWaits(r.ns[n], r.acts[0].who) && DeliveriesSoFar(r, n) == 0
  {
    var m := n - 1;
    assert r.StepAt(m);
    if m == 0 {
      FirstStep(r.acts[0], r.ns[1]);
    } else {
      assert NobodyReturns(r.ns[m], r.ns[n]);
      StillCleaning(r, m);
      OthersWait(r.ns[m], r.acts[0].who, r.acts[m], r.ns[n]);
    }
  }

  /** Step m is the second cleanup, by the other peer than the one that moved first, and nobody cleans up after it. */
  ghost predicate IsSecondCleanup(r: Trace, m: nat, n: nat)
    requires n <= |r.acts| < |r.ns|
  {
    && 0 < m < n && OneWaits(r.ns[m], r.acts[0].who)
    && r.acts[m].Poll? && r.acts[m].who == r.acts[0].who.Other()
    && DeliveriesSoFar(r, m) == 0
    && forall k | m < k <= n :: NobodyStartsOver(r.ns[k])
  }

  lemma {:induction false} SecondCleanup(r: Trace, n: nat) returns (m: nat)
    requires r.Valid() && n <= |r.acts| && r.ns[0] == POWER_ON && Unbroken(r, n)
    requires NobodyStartsOver(r.ns[n])
    ensures IsSecondCleanup(r, m, n)
  {
    m := n - 1;
    assert r.StepAt(m);
    if m == 0 {
      FirstStep(r.acts[0], r.ns[1]);
      assert false;
    } else if NobodyStartsOver(r.ns[m]) {
      m := SecondCleanup(r, m);
    } else {
      StillCleaning(r, m);
      if !(r.acts[m].Poll? && r.acts[m].who == r.acts[0].who.Other()) {
        assert NobodyReturns(r.ns[m], r.ns[n]);
        OthersWait(r.ns[m], r.acts[0].who, r.acts[m], r.ns[n]);
        assert false;
      }
    }
  }

  // ----- The rest of the run ----------

  function From(r: Trace, m: nat): (rest: Trace)
    requires m <= |r.acts| < |r.ns|
  {
    Trace(r.acts[m..], r.ns[m..])
  }

  lemma FromIsValid(r: Trace, m: nat)
    requires r.Valid() && m <= |r.acts|
    ensures From(r, m).Valid()
  {
    forall i: nat | i < |r.acts| - m
      ensures From(r, m).StepAt(i)
    {
      assert r.StepAt(m + i);
    }
  }

  lemma {:induction false} DeliveriesFrom(r: Trace, m: nat, n: nat)
    requires m <= n <= |r.acts| < |r.ns|
    ensures DeliveriesSoFar(r, n) == DeliveriesSoFar(r, m) + DeliveriesSoFar(From(r, m), n - m)
  {
    if m < n {
      DeliveriesFrom(r, m, n - 1);
    }
  }

  /** The part of a run after its second cleanup is smooth, and has all its deliveries. */
  lemma SmoothAfterwards(r: Trace, m: nat, n: nat)
    requires r.Valid() && n <= |r.acts| && Unbroken(r, n) && IsSecondCleanup(r, m, n)
    ensures var s, i := From(r, m + 1), n - m - 1;
            && s.Valid() && i <= |s.acts| && s.ns[0] == r.ns[m + 1] && s.ns[i] == r.ns[n]
            && Smooth(s, i) && DeliveriesSoFar(s, i) == DeliveriesSoFar(r, n)
  {
    FromIsValid(r, m + 1);
    DeliveriesFrom(r, m + 1, n);
    assert From(r, m + 1).ns[n - m - 1] == r.ns[n];
  }

  /** Any script whose first stage the second cleanup leads to is followed from there. */
  lemma ScriptAfterwards(r: Trace, sts: seq<Stage>, m: nat, n: nat)
    requires r.Valid() && n <= |r.acts| && Unbroken(r, n) && IsSecondCleanup(r, m, n)
    requires IsScript(sts) && AtStage(r.ns[m + 1], sts[0])
    ensures var k := DeliveriesSoFar(r, n); k <= LAST && AtStage(r.ns[n], sts[k])
  {
    SmoothAfterwards(r, m, n);
    FollowsScript(From(r, m + 1), sts, n - m - 1);
  }

  lemma AfterTakingAll(r: Trace, m: nat, n: nat)
    requires r.Valid() && n <= |r.acts| && Unbroken(r, n) && IsSecondCleanup(r, m, n)
    requires TakesAll(r.ns[m], r.acts[m])
    ensures var k := DeliveriesSoFar(r, n); k <= LAST && AtStage(r.ns[n], StageOf(r.acts[0].who, k))
  {
    assert r.StepAt(m);
    SecondCleanupDecides(r.ns[m], r.acts[0].who, r.acts[m], r.ns[m + 1]);
    ScriptIsScript(r.acts[0].who);
    ScriptAfterwards(r, Script(r.acts[0].who), m, n);
  }

  lemma AfterCrossing(r: Trace, m: nat, n: nat)
    requires r.Valid() && n <= |r.acts| && Unbroken(r, n) && IsSecondCleanup(r, m, n)
    requires !TakesAll(r.ns[m], r.acts[m])
    ensures Stalling(r.ns[n])
  {
    assert r.StepAt(m);
    SecondCleanupDecides(r.ns[m], r.acts[0].who, r.acts[m], r.ns[m + 1]);
    SmoothAfterwards(r, m, n);
    CrossedJoinsStall(From(r, m + 1), n - m - 1);
  }

  /** The one byte in flight late in a stall is the first letter, and its reader is past it. */
  lemma LateInStall(n: Net, i: nat, j: nat, s: Side)
    requires Crossed(n, i, j) && n.At(s.Other()).Pending() == []
    ensures |n.At(s).Pending()| <= 1 ==> n.At(s).Pending() == [] || n.At(s).peer.idx == 1
    ensures |n.At(s).Pending()| == 1 ==> n.At(s).Pending() == [PASSWORD[0]]
  {
    assert |n.At(A).Pending()| == 1 + Smaller(j, 2) - i;
    assert |n.At(B).Pending()| == 1 + Smaller(i, 2) - j;
  }

  /** A stage with at most one byte, which has the first letter only before a reader at the start of the word. */
  predicate Unstalled(st: Stage) {
    && |st.tail| <= 1
    && (st.reading.0 == Waiting && st.other.0 == Waiting ==>
          st.tail != [] && (st.tail == [PASSWORD[0]] ==> st.reading.1 == 0))
  }

  /** While both peers wait, the first letter is in flight only to a reader that is still before it. */
  lemma FirstLetter(first: Side, k: nat)
    requires k <= LAST
    ensures Unstalled(StageOf(first, k))
  {
    if k % 2 == 0 && 4 <= k < 12 {
      assert PASSWORD[k / 2 - 1] != PASSWORD[0];
    }
  }

  lemma StallIsNoSuchStage(n: Net, i: nat, j: nat, st: Stage)
    requires Crossed(n, i, j) && Unstalled(st)
    ensures !AtStage(n, st)
  {
    if n.At(st.reader.Other()).Pending() == [] {
      LateInStall(n, i, j, st.reader);
    }
  }

  /** A stall is no stage of the script. */
  lemma StallIsNoStage(n: Net, first: Side, k: nat)
    requires Stalling(n) && k <= LAST
    ensures !AtStage(n, StageOf(first, k))
  {
    var i: nat, j: nat :| Crossed(n, i, j);
    FirstLetter(first, k);
    StallIsNoSuchStage(n, i, j, StageOf(first, k));
  }

  /**
   * Two peers that power up: in every run without losses and timeouts, once both have cleaned up, they are on the way
   * through the 23 deliveries exactly when the second cleanup took the first join request; otherwise they wait.
   */
  lemma PowerOn(r: Trace, n: nat) returns (m: nat)
    requires r.Valid() && n <= |r.acts| && r.ns[0] == POWER_ON && Unbroken(r, n)
    requires NobodyStartsOver(r.ns[n])
    ensures IsSecondCleanup(r, m, n)
    ensures var k := DeliveriesSoFar(r, n);
            TakesAll(r.ns[m], r.acts[m]) <==> k <= LAST && AtStage(r.ns[n], StageOf(r.acts[0].who, k))
    ensures !TakesAll(r.ns[m], r.acts[m]) <==> Stalling(r.ns[n])
  {
    m := SecondCleanup(r, n);
    var k := DeliveriesSoFar(r, n);
    if TakesAll(r.ns[m], r.acts[m]) {
      AfterTakingAll(r, m, n);
    } else {
      AfterCrossing(r, m, n);
    }
    if Stalling(r.ns[n]) && k <= LAST {
      StallIsNoStage(r.ns[n], r.acts[0].who, k);
    }
  }

  /** When both are connected: exactly after 23 deliveries that follow such a cleanup. */
  lemma ConnectedAfterPowerOn(r: Trace, n: nat) returns (m: nat)
    requires r.Valid() && n <= |r.acts| && r.ns[0] == POWER_ON && Unbroken(r, n)
    requires NobodyStartsOver(r.ns[n])
    ensures IsSecondCleanup(r, m, n)
    ensures r.ns[n].a.peer.state == Connected && r.ns[n].b.peer.state == Connected
            <==> TakesAll(r.ns[m], r.acts[m]) && DeliveriesSoFar(r, n) == LAST
  {
    m := PowerOn(r, n);
    if TakesAll(r.ns[m], r.acts[m]) {
      RestartJoins(r.acts[0].who, 0);
      StageAgrees(r.ns[n], r.acts[0].who, 0, DeliveriesSoFar(r, n));
    }
  }
}
