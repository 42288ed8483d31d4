/** Sessions that do not start afresh: from which leftovers of an earlier session is an exit still a gesture? */
module GestureSessions {
  import opened MousePacket
  import opened PacketFraming
  import opened Gesture
  import opened GestureHistory
  import opened GestureRuns
  import opened GestureTheorems
  import opened GestureCompleteness
  import opened GestureBounds
  import opened MouseDriver

  /** Some byte stream makes the session. */
  ghost predicate Heard(q: Trace) {
    exists evs :: Reads(q, evs)
  }

  /** A session that starts from s and ends in the exit phase, as `mouse_test_gesture` makes it. */
  ghost predicate EndsInExit(cfg: Config, s: Tracker, q: Trace) {
    && q.ValidFrom(Initialised(s), Bits32, cfg) && Heard(q) && Result(q) == Exit
    && forall k | 0 < k < |q.ps| :: q.ss[k].phase != Exit
  }

  /** Whatever is drawn in a session from s, it ends in the exit phase only after an inverted V. */
  ghost predicate SessionsSound(cfg: Config, s: Tracker) {
    forall q | EndsInExit(cfg, s, q) :: exists g: Legs :: DrawsInvertedV(cfg, q, g)
  }

  lemma HeardIsDecoded(q: Trace)
    requires Heard(q)
    ensures AllDecoded(q.ps)
  {
  }

  lemma HarmlessInitialised(cfg: Config, s: Tracker)
    requires Harmless(cfg, s)
    ensures Harmless(cfg, Initialised(s))
  {
    if Spoilt(cfg, s) {
      assert forall m: Motion | NineBits(m) :: Spoils(cfg, s, m) && Spoils(cfg, Initialised(s), m);
    }
  }

  /** Soundness of sessions: from the initial phase with any window, and while drawing from a harmless one. */
  lemma SessionIsSound(cfg: Config, s: Tracker)
    requires Harmless(cfg, s)
    ensures SessionsSound(cfg, s)
  {
    HarmlessInitialised(cfg, s);
    forall q | EndsInExit(cfg, s, q)
      ensures exists g: Legs :: DrawsInvertedV(cfg, q, g)
    {
      HeardIsDecoded(q);
      MachineAcceptsOnlyGestures(cfg, q, |q.ps|);
    }
  }

  // ----- Sessions by their packets ----------

  lemma StepIgnoresRaw(w: Width, cfg: Config, s: Tracker, p: Packet, q: Packet)
    requires q == p.(raw := q.raw)
    ensures Step(w, cfg, s, q) == Step(w, cfg, s, p)
  {
    assert MotionEvent(w, cfg, s, q) == MotionEvent(w, cfg, s, p);
  }

  predicate NextIs(cfg: Config, ps: seq<Packet>, ss: seq<Tracker>, n: nat)
    requires |ss| == |ps| + 1 && n < |ps|
  {
    ss[n + 1] == Step(Bits32, cfg, ss[n], ps[n])
  }

  /** The states that these packets lead through. */
  ghost predicate Evolves(cfg: Config, ps: seq<Packet>, ss: seq<Tracker>) {
    |ss| == |ps| + 1 && forall n: nat | n < |ps| :: NextIs(cfg, ps, ss, n)
  }

  lemma RunEvolves(cfg: Config, s: Tracker, ps: seq<Packet>, q: Trace)
    requires AllDecoded(ps) && q.ValidFrom(s, Bits32, cfg) && q.ps == Sent(ps)
    ensures Evolves(cfg, ps, q.ss)
  {
    forall n: nat | n < |ps|
      ensures NextIs(cfg, ps, q.ss, n)
    {
      assert q.StepAt(Bits32, cfg, n);
      StepIgnoresRaw(Bits32, cfg, q.ss[n], ps[n], q.ps[n]);
    }
  }

  /** The session from s in which a device sends these packets. */
  lemma Perform(cfg: Config, s: Tracker, ps: seq<Packet>) returns (q: Trace)
    requires AllDecoded(ps)
    ensures q.ValidFrom(Initialised(s), Bits32, cfg) && Heard(q)
    ensures |q.ps| == |ps| && forall i | 0 <= i < |ps| :: q.ps[i] == ps[i].(raw := q.ps[i].raw)
    ensures Evolves(cfg, ps, q.ss) && q.ss[0] == Initialised(s)
  {
    q := RunExists(Bits32, cfg, Initialised(s), Sent(ps));
    RunEvolves(cfg, Initialised(s), ps, q);
    WireRoundTrip(q.ps);
    assert Reads(q, Wire(Frames(q.ps)));
  }

  /** A phase just entered: everything but the buttons is zero. */
  function Entered(phase: Phase, lb: bool, rb: bool): (s: Tracker) {
    START.(phase := phase, lb := lb, rb := rb)
  }

  /** A button change, the left one first: a new phase is entered, or nothing but the button changes. */
  function Pressed(s: Tracker, lb: bool, rb: bool): (t: Tracker) {
    var t := if lb != s.lb then s.(lb := lb) else s.(rb := rb);
    var phase := if lb != s.lb then AfterLeft(s.phase, lb) else AfterRight(s.phase, rb);
    if phase != s.phase then Entered(phase, t.lb, t.rb) else if phase == Vertex then t.(count := 0) else t
  }

  lemma ButtonStep(cfg: Config, s: Tracker, p: Packet)
    requires !IsMotion(s.lb, s.rb, p)
    ensures Step(Bits32, cfg, s, p) == Pressed(s, p.lb, p.rb)
  {
  }

  lemma NextPress(cfg: Config, ps: seq<Packet>, ss: seq<Tracker>, n: nat)
    requires Evolves(cfg, ps, ss) && n < |ps| && !IsMotion(ss[n].lb, ss[n].rb, ps[n])
    ensures ss[n + 1] == Pressed(ss[n], ps[n].lb, ps[n].rb)
  {
    assert NextIs(cfg, ps, ss, n);
    ButtonStep(cfg, ss[n], ps[n]);
  }

  // ----- Exits without a left stroke ----------

  /** Down and right as far as a packet can say: a right stroke of one motion, for every length. */
  const DOWN_RIGHT := Motion(255, -256)

  function RightStroke(rb: bool): (p: Packet)
    ensures Decoded(p) && Reports(p, false, rb, DOWN_RIGHT)
  {
    Report(false, rb, DOWN_RIGHT)
  }

  lemma RightStrokeDone(cfg: Config, rb: bool)
    ensures Step(Bits32, cfg, Entered(DrawRight, false, rb), RightStroke(rb)) == Entered(RightDone, false, rb)
  {
  }

  lemma NextStroke(cfg: Config, ps: seq<Packet>, ss: seq<Tracker>, n: nat, rb: bool)
    requires Evolves(cfg, ps, ss) && n < |ps| && ps[n] == RightStroke(rb)
    requires ss[n] == Entered(DrawRight, false, rb)
    ensures ss[n + 1] == Entered(RightDone, false, rb)
  {
    assert NextIs(cfg, ps, ss, n);
    RightStrokeDone(cfg, rb);
  }

  function LeftPress(): (p: Packet)
    ensures Decoded(p) && Reports(p, true, false, REST)
  {
    Report(true, false, REST)
  }

  function RightPress(): (p: Packet)
    ensures Decoded(p) && Reports(p, false, true, REST)
  {
    Report(false, true, REST)
  }

  function Release(): (p: Packet)
    ensures Decoded(p) && Reports(p, false, false, REST)
  {
    Report(false, false, REST)
  }

  /** From packet i on: the right half of a gesture. */
  predicate RightHalfFollows(ps: seq<Packet>, i: nat) {
    && |ps| == i + 3
    && ps[i] == RightPress() && ps[i + 1] == RightStroke(true) && ps[i + 2] == Release()
  }

  lemma RightHalfExits(cfg: Config, ps: seq<Packet>, ss: seq<Tracker>, i: nat)
    requires Evolves(cfg, ps, ss) && RightHalfFollows(ps, i)
    requires ss[i].phase == Vertex && !ss[i].lb && !ss[i].rb
    ensures ss[i + 1] == Entered(DrawRight, false, true) && ss[i + 2] == Entered(RightDone, false, true)
    ensures ss[i + 3] == Entered(Exit, false, false)
  {
    NextPress(cfg, ps, ss, i);
    NextStroke(cfg, ps, ss, i + 1, true);
    NextPress(cfg, ps, ss, i + 2);
  }

  /** What to send in each phase; while drawing right, m first. */
  function WayOut(phase: Phase, m: Motion): (ps: seq<Packet>)
    requires NineBits(m)
    ensures AllDecoded(ps)
  {
    match phase
    case LeftDone => [LeftPress(), Release(), RightPress(), RightStroke(true), Release()]
    case Vertex => [RightPress(), RightStroke(true), Release()]
    case DrawRight =>
      [ Report(false, false, m), RightStroke(false), RightStroke(false), RightStroke(false), RightPress(), Release() ]
    case RightDone => [RightPress(), Release()]
    case _ => [RightPress()]
  }

  /** The last state is the only one in the exit phase, but for the first; from the n-th on no left stroke is drawn. */
  predicate ExitsLast(ss: seq<Tracker>, n: nat) {
    && 1 < |ss| && ss[|ss| - 1].phase == Exit
    && (forall k | 0 < k < |ss| - 1 :: ss[k].phase != Exit)
    && (forall k: nat | n <= k < |ss| :: ss[k].phase != DrawLeft)
  }

  lemma LeftDoneExits(cfg: Config, s: Tracker, ss: seq<Tracker>, m: Motion)
    requires s.phase == LeftDone && ss != [] && ss[0] == Initialised(s)
    requires NineBits(m) && Evolves(cfg, WayOut(LeftDone, m), ss)
    ensures ExitsLast(ss, 0)
  {
    var ps := WayOut(LeftDone, m);
    NextPress(cfg, ps, ss, 0);
    NextPress(cfg, ps, ss, 1);
    RightHalfExits(cfg, ps, ss, 2);
  }

  lemma VertexExits(cfg: Config, s: Tracker, ss: seq<Tracker>, m: Motion)
    requires s.phase == Vertex && ss != [] && ss[0] == Initialised(s)
    requires NineBits(m) && Evolves(cfg, WayOut(Vertex, m), ss)
    ensures ExitsLast(ss, 0)
  {
    RightHalfExits(cfg, WayOut(Vertex, m), ss, 0);
  }

  lemma RightDoneExits(cfg: Config, s: Tracker, ss: seq<Tracker>, m: Motion)
    requires s.phase == RightDone && ss != [] && ss[0] == Initialised(s)
    requires NineBits(m) && Evolves(cfg, WayOut(RightDone, m), ss)
    ensures ExitsLast(ss, 0)
  {
    var ps := WayOut(RightDone, m);
    NextPress(cfg, ps, ss, 0);
    NextPress(cfg, ps, ss, 1);
  }

  /** While drawing right: a motion that the window found cannot spoil. */
  predicate Opens(cfg: Config, s: Tracker, m: Motion) {
    NineBits(m) && if s.count == PACKET_SLOPE_COUNT - 1 then !Spoils(cfg, s, m) else m == DOWN_RIGHT
  }

  /** A right stroke of n motions straight along DOWN_RIGHT after at most one other, or held after it. */
  predicate Falling(cfg: Config, s: Tracker, n: nat) {
    && (s.phase == DrawRight || s.phase == RightDone) && !s.lb && !s.rb
    && Steady(cfg, s) && s.count <= n && s.lineX == 255 * s.count && s.lineY == -256 * s.count
    && -256 * n - 256 <= s.y <= 255
    && s.x <= 255 * n + 255 && (if s.phase == DrawRight then 255 * n - 256 <= s.x else 0 <= s.x)
  }

  /** One motion of a stroke, by what it adds and the tests on that. */
  lemma StrokeStep(cfg: Config, s: Tracker, p: Packet)
    requires OnStroke(s.phase) && IsMotion(s.lb, s.rb, p) && Steady(cfg, s) && Fits(s, p)
    ensures var u := Summed(s, p);
            var (t, e) := StrokeEvent(cfg, u, Flat(s.phase, Slope(u)));
            Step(Bits32, cfg, s, p) == React(t, e)
  {
    FitsStep(cfg, s, p);
    StrokeEventOf(cfg, s, p);
  }

  /** What drawing reacts with, when nothing is spoilt. */
  lemma DrawReacts(s: Tracker, e: Event)
    requires (s.phase == DrawLeft || s.phase == DrawRight) && (e == LineComplete || e == ContinueDraw)
    ensures var side := SideOf(s.phase);
            var steep := if side == Left then Slope(s).AboveOne() else Slope(s).BelowMinusOne();
            React(s, e) == if e == ContinueDraw then s
                           else Entered(if s.count == 0 || steep then DonePhase(side) else s.phase, s.lb, s.rb)
  {
  }

  lemma FirstFall(cfg: Config, s: Tracker, m: Motion)
    requires s == Initialised(s) && s.phase == DrawRight && WindowFits(s) && Opens(cfg, s, m)
    ensures Falling(cfg, Step(Bits32, cfg, s, Report(false, false, m)), 0)
  {
    var p := Report(false, false, m);
    var u := Summed(s, p);
    var (t, e) := StrokeEvent(cfg, u, Flat(DrawRight, Slope(u)));
    QuotientsDecide(Right, u.lineX, u.lineY);
    StrokeStep(cfg, s, p);
    assert e != TolFail;
    DrawReacts(t, e);
  }

  lemma NextFall(cfg: Config, s: Tracker, n: nat)
    requires Falling(cfg, s, n) && n < 3
    ensures var t := Step(Bits32, cfg, s, RightStroke(false));
            Falling(cfg, t, n + 1) && (n == 2 || s.phase == RightDone ==> t.phase == RightDone)
  {
    var p := RightStroke(false);
    var u := Summed(s, p);
    var (t, e) := StrokeEvent(cfg, u, Flat(s.phase, Slope(u)));
    FallingStep(cfg, s, n);
    assert t == u && e == (if u.x >= cfg.xLen then LineComplete else ContinueDraw);
    assert Slope(u).BelowMinusOne();
    if s.phase == DrawRight {
      DrawReacts(t, e);
    } else {
      assert React(t, e) == t;
    }
  }

  lemma FallingStep(cfg: Config, s: Tracker, n: nat)
    requires Falling(cfg, s, n) && n < 3
    ensures var u := Summed(s, RightStroke(false));
            var (t, e) := StrokeEvent(cfg, u, Flat(s.phase, Slope(u)));
            Step(Bits32, cfg, s, RightStroke(false)) == React(t, e)
  {
    StrokeStep(cfg, s, RightStroke(false));
  }

  lemma FallingOn(cfg: Config, ps: seq<Packet>, ss: seq<Tracker>, i: nat, n: nat)
    requires Evolves(cfg, ps, ss) && i < |ps| && ps[i] == RightStroke(false)
    requires Falling(cfg, ss[i], n) && n < 3
    ensures Falling(cfg, ss[i + 1], n + 1) && (n == 2 ==> ss[i + 1].phase == RightDone)
  {
    NextFall(cfg, ss[i], n);
    assert NextIs(cfg, ps, ss, i);
  }

  /** While a right stroke is drawn or held without buttons. */
  predicate OnTheRight(s: Tracker) {
    (s.phase == DrawRight || s.phase == RightDone) && !s.lb && !s.rb
  }

  lemma FallsThrough(cfg: Config, ps: seq<Packet>, ss: seq<Tracker>)
    requires Evolves(cfg, ps, ss) && 4 <= |ps| && Falling(cfg, ss[1], 0)
    requires ps[1] == ps[2] == ps[3] == RightStroke(false)
    ensures OnTheRight(ss[1]) && OnTheRight(ss[2]) && OnTheRight(ss[3])
    ensures OnTheRight(ss[4]) && ss[4].phase == RightDone
  {
    FallingOn(cfg, ps, ss, 1, 0);
    FallingOn(cfg, ps, ss, 2, 1);
    FallingOn(cfg, ps, ss, 3, 2);
  }

  lemma DrawRightExits(cfg: Config, s: Tracker, ss: seq<Tracker>, m: Motion)
    requires s.phase == DrawRight && WindowFits(s) && Opens(cfg, s, m) && ss != [] && ss[0] == Initialised(s)
    requires Evolves(cfg, WayOut(DrawRight, m), ss)
    ensures ExitsLast(ss, 0)
  {
    var ps := WayOut(DrawRight, m);
    FirstFalls(cfg, ps, ss, m);
    FallsThrough(cfg, ps, ss);
    NextPress(cfg, ps, ss, 4);
    NextPress(cfg, ps, ss, 5);
  }

  lemma FirstFalls(cfg: Config, ps: seq<Packet>, ss: seq<Tracker>, m: Motion)
    requires Evolves(cfg, ps, ss) && ps != [] && NineBits(m) && ps[0] == Report(false, false, m)
    requires ss[0] == Initialised(ss[0]) && ss[0].phase == DrawRight && WindowFits(ss[0]) && Opens(cfg, ss[0], m)
    ensures Falling(cfg, ss[1], 0)
  {
    FirstFall(cfg, ss[0], m);
    assert NextIs(cfg, ps, ss, 0);
  }

  /** The states from which a session can exit without a left stroke. */
  ghost predicate Bypassable(cfg: Config, s: Tracker) {
    && s.phase != Initial && s.phase != DrawLeft
    && (s.phase == DrawRight ==> WindowFits(s) && !Spoilt(cfg, s))
  }

  /** A motion that opens the way, if one is needed. */
  lemma AnOpening(cfg: Config, s: Tracker) returns (m: Motion)
    requires Bypassable(cfg, s)
    ensures NineBits(m) && (s.phase == DrawRight ==> Opens(cfg, s, m))
  {
    m := DOWN_RIGHT;
    if s.phase == DrawRight && s.count == PACKET_SLOPE_COUNT - 1 {
      m :| NineBits(m) && !Spoils(cfg, s, m);
    }
  }

  lemma WayOutExits(cfg: Config, s: Tracker, ss: seq<Tracker>, m: Motion)
    requires Bypassable(cfg, s) && NineBits(m) && (s.phase == DrawRight ==> Opens(cfg, s, m))
    requires Evolves(cfg, WayOut(s.phase, m), ss) && ss[0] == Initialised(s)
    ensures ExitsLast(ss, 0)
  {
    match s.phase {
      case LeftDone => LeftDoneExits(cfg, s, ss, m);
      case Vertex => VertexExits(cfg, s, ss, m);
      case DrawRight => DrawRightExits(cfg, s, ss, m);
      case RightDone => RightDoneExits(cfg, s, ss, m);
      case Exit => NextPress(cfg, WayOut(Exit, m), ss, 0);
    }
  }

  lemma ExitingSession(cfg: Config, s: Tracker, q: Trace, n: nat)
    requires q.ValidFrom(Initialised(s), Bits32, cfg) && Heard(q) && ExitsLast(q.ss, n)
    ensures EndsInExit(cfg, s, q)
  {
  }

  /** From each of them there is a session that exits although no left stroke was drawn in it. */
  lemma ExitsWithoutLeftStroke(cfg: Config, s: Tracker) returns (q: Trace)
    requires Bypassable(cfg, s)
    ensures EndsInExit(cfg, s, q)
    ensures forall k: nat | k < |q.ss| :: q.ss[k].phase != DrawLeft
  {
    var m := AnOpening(cfg, s);
    q := Perform(cfg, s, WayOut(s.phase, m));
    WayOutExits(cfg, s, q.ss, m);
    ExitingSession(cfg, s, q, 0);
  }

  lemma GestureDrawsLeft(cfg: Config, q: Trace, g: Legs)
    ensures IsGesture(cfg, q, g) ==> g.left < |q.ss| && q.ss[g.left].phase == DrawLeft
  {
  }

  lemma UnsoundElsewhere(cfg: Config, s: Tracker)
    requires Bypassable(cfg, s)
    ensures !SessionsSound(cfg, s)
  {
    var q := ExitsWithoutLeftStroke(cfg, s);
    forall g: Legs
      ensures !IsGesture(cfg, q, g)
    {
      GestureDrawsLeft(cfg, q, g);
    }
  }

  // ----- A slope window left over while drawing left ----------

  /** Long enough, not steep, and accepted all the same on the strength of the window found. */
  predicate Steals(cfg: Config, s: Tracker, m: Motion) {
    var (dx, dy) := (s.lineX + m.dx, s.lineY + m.dy);
    && NineBits(m) && m.dx >= cfg.xLen && Loss(m.dy) <= cfg.tol
    && !Over(m.dx, m.dy) && if s.count == PACKET_SLOPE_COUNT - 1 then Survives(dx, dy) else Over(dx, dy)
  }

  lemma StolenStrokeDone(cfg: Config, s: Tracker, m: Motion)
    requires s == Initialised(s).(lb := true) && s.phase == DrawLeft && WindowFits(s) && Steals(cfg, s, m)
    ensures Step(Bits32, cfg, s, Report(true, false, m)) == Entered(LeftDone, true, false)
  {
    var p := Report(true, false, m);
    var u := Summed(s, p);
    var (t, e) := StrokeEvent(cfg, u, Flat(DrawLeft, Slope(u)));
    QuotientsDecide(Left, u.lineX, u.lineY);
    StrokeStep(cfg, s, p);
    assert e == LineComplete;
    DrawReacts(t, e);
  }

  lemma StolenIsNotAccepted(cfg: Config, s: Tracker, m: Motion)
    requires Steals(cfg, s, m)
    ensures !Accepted(Left, cfg, [m])
  {
    TotalOfOne(NetX, m);
    TotalOfOne(NetY, m);
    assert OpenWindow([m]) == [m];
  }

  /** Press, the one motion, release, and the right half. */
  function StolenSession(m: Motion): (ps: seq<Packet>)
    requires NineBits(m)
    ensures AllDecoded(ps)
  {
    [LeftPress(), Report(true, false, m), Release(), RightPress(), RightStroke(true), Release()]
  }

  lemma StolenSessionExits(cfg: Config, s: Tracker, ss: seq<Tracker>, m: Motion)
    requires s.phase == DrawLeft && WindowFits(s) && Steals(cfg, s, m)
    requires Evolves(cfg, StolenSession(m), ss) && ss[0] == Initialised(s)
    ensures ExitsLast(ss, 2)
  {
    var ps := StolenSession(m);
    NextPress(cfg, ps, ss, 0);
    StolenDone(cfg, s, ps, ss, m);
    NextPress(cfg, ps, ss, 2);
    RightHalfExits(cfg, ps, ss, 3);
  }

  lemma StolenDone(cfg: Config, s: Tracker, ps: seq<Packet>, ss: seq<Tracker>, m: Motion)
    requires s.phase == DrawLeft && WindowFits(s) && Steals(cfg, s, m) && Evolves(cfg, ps, ss)
    requires 1 < |ps| && ps[1] == Report(true, false, m) && ss[1] == Initialised(s).(lb := true)
    ensures ss[2] == Entered(LeftDone, true, false)
  {
    StolenStrokeDone(cfg, ss[1], m);
    assert NextIs(cfg, ps, ss, 1);
  }

  lemma StolenMoves(ps: seq<Packet>, i: nat, j: nat, m: Motion)
    requires 2 <= |ps| && i < j <= 2
    requires Reports(ps[0], true, false, REST) && Reports(ps[1], true, false, m)
    ensures Moves(ps, i, j) == if j == 2 then [m] else []
  {
    assert Held(ps, 0) == (false, false) && Held(ps, 1) == (true, false);
    assert Moves(ps, i, i) == [];
    if j == 2 {
      assert Moves(ps, i, 1) == [];
    }
  }

  lemma StolenIsNoGesture(cfg: Config, q: Trace, g: Legs, m: Motion)
    requires ExitsLast(q.ss, 2) && 2 <= |q.ps| && !Accepted(Left, cfg, [m])
    requires Reports(q.ps[0], true, false, REST) && Reports(q.ps[1], true, false, m)
    ensures !IsGesture(cfg, q, g)
  {
    if IsGesture(cfg, q, g) {
      assert q.ss[g.corner - 1].phase == DrawLeft && g.corner <= 2;
      StolenMoves(q.ps, g.left, g.corner, m);
    }
  }

  /** One motion that is no stroke is accepted, with motions drawn before the session. */
  lemma StolenStroke(cfg: Config, s: Tracker, m: Motion)
    requires s.phase == DrawLeft && WindowFits(s) && Steals(cfg, s, m)
    ensures !SessionsSound(cfg, s)
  {
    var q := Perform(cfg, s, StolenSession(m));
    StolenSessionExits(cfg, s, q.ss, m);
    ExitingSession(cfg, s, q, 2);
    StolenIsNotAccepted(cfg, s, m);
    forall g: Legs
      ensures !IsGesture(cfg, q, g)
    {
      StolenIsNoGesture(cfg, q, g, m);
    }
  }

  // ----- The exact condition ----------

  /**
   * Which leftovers a session is sound from, whatever is drawn in it: the initial phase; in the right stroke a window
   * one packet short of full that no motion can save; and nothing else, but for the left stroke.
   */
  lemma SoundFromLeftover(cfg: Config, s: Tracker)
    requires s.phase != DrawLeft && (s.phase == DrawRight ==> WindowFits(s))
    ensures SessionsSound(cfg, s) <==> s.phase == Initial || (s.phase == DrawRight && Spoilt(cfg, s))
  {
    if s.phase == Initial || Spoilt(cfg, s) {
      SessionIsSound(cfg, s);
    } else {
      UnsoundElsewhere(cfg, s);
    }
  }

  /** The left stroke: sound from an empty window or one that no motion can save, unsound where one motion steals. */
  lemma SoundFromLeftStroke(cfg: Config, s: Tracker)
    requires s.phase == DrawLeft && WindowFits(s)
    ensures Cleared(s) || Spoilt(cfg, s) ==> SessionsSound(cfg, s)
    ensures (exists m :: Steals(cfg, s, m)) ==> !SessionsSound(cfg, s)
  {
    if Cleared(s) || Spoilt(cfg, s) {
      SessionIsSound(cfg, s);
    }
    if m :| Steals(cfg, s, m) {
      StolenStroke(cfg, s, m);
    }
  }

  /** For every tolerance and length a window that rises, with room for two more packets, is such a window. */
  lemma RisingWindowSteals(cfg: Config, s: Tracker)
    requires s.phase == DrawLeft && s.count < PACKET_SLOPE_COUNT - 1 && -255 < s.lineX < s.lineY
    ensures Steals(cfg, s, Motion(255, 255))
  {
  }

  /** Drawing left, after n motions straight up. */
  function Risen(n: nat): (s: Tracker) {
    Entered(DrawLeft, true, false).(y := 255 * n, lineY := 255 * n, count := n)
  }

  /** For each phase a state to start in; while drawing left, two motions are still in the window. */
  function Leftover(phase: Phase): (s: Tracker)
    ensures s.phase == phase
  {
    if phase == DrawLeft then Initialised(Risen(2)) else Entered(phase, false, false)
  }

  /** The starting phase alone: it guarantees soundness exactly when it is the initial one. */
  lemma SoundFromPhase(cfg: Config, phase: Phase)
    ensures SessionsSound(cfg, Leftover(phase)) <==> phase == Initial
    ensures (forall s: Tracker | s.phase == phase :: SessionsSound(cfg, s)) <==> phase == Initial
  {
    if phase == Initial {
      forall s: Tracker | s.phase == phase
        ensures SessionsSound(cfg, s)
      {
        SessionIsSound(cfg, s);
      }
    } else if phase == DrawLeft {
      RisingWindowSteals(cfg, Leftover(phase));
      StolenStroke(cfg, Leftover(phase), Motion(255, 255));
    } else {
      UnsoundElsewhere(cfg, Leftover(phase));
    }
  }

  // ----- The leftovers are real ----------

  const NARROW := Config(0, 1)

  function GestureInSix(): (ps: seq<Packet>)
    ensures |ps| == 6 && AllDecoded(ps)
  {
    [LeftPress(), Report(true, false, Motion(1, 2)), Release(), RightPress(), RightStroke(true), Release()]
  }

  lemma LeftStrokeDone(p: Packet)
    requires Reports(p, true, false, Motion(1, 2))
    ensures Step(Bits32, NARROW, Entered(DrawLeft, true, false), p) == Entered(LeftDone, true, false)
  {
  }

  lemma ThreeSteps(ss: seq<Tracker>)
    requires Evolves(NARROW, GestureInSix(), ss) && ss[0] == START
    ensures ss[2] == Entered(LeftDone, true, false) && ss[3] == Entered(Vertex, false, false)
  {
    var ps := GestureInSix();
    NextPress(NARROW, ps, ss, 0);
    LeftStrokeDone(ps[1]);
    assert NextIs(NARROW, ps, ss, 1);
    NextPress(NARROW, ps, ss, 2);
  }

  /** A gesture, packet by packet. */
  lemma SixSteps(ss: seq<Tracker>)
    requires Evolves(NARROW, GestureInSix(), ss) && ss[0] == START
    ensures ss[2] == Entered(LeftDone, true, false) && ss[3] == Entered(Vertex, false, false)
    ensures ss[4] == Entered(DrawRight, false, true) && ss[5] == Entered(RightDone, false, true)
    ensures ss[6] == Entered(Exit, false, false)
  {
    ThreeSteps(ss);
    RightHalfExits(NARROW, GestureInSix(), ss, 3);
  }

  lemma StraightUp(n: nat, p: Packet)
    requires n < 2 && Reports(p, true, false, Motion(0, 255))
    ensures Step(Bits32, NARROW, Risen(n), p) == Risen(n + 1)
  {
    assert MotionEvent(Bits32, NARROW, Risen(n), p) == (Risen(n + 1), ContinueDraw);
  }

  lemma NextRise(ps: seq<Packet>, ss: seq<Tracker>, i: nat, n: nat)
    requires Evolves(NARROW, ps, ss) && i < |ps| && Reports(ps[i], true, false, Motion(0, 255))
    requires n < 2 && ss[i] == Risen(n)
    ensures ss[i + 1] == Risen(n + 1)
  {
    StraightUp(n, ps[i]);
    assert NextIs(NARROW, ps, ss, i);
  }

  function TwoUp(): (ps: seq<Packet>)
    ensures |ps| == 3 && AllDecoded(ps)
  {
    [LeftPress(), Report(true, false, Motion(0, 255)), Report(true, false, Motion(0, 255))]
  }

  lemma TwoUpSteps(ss: seq<Tracker>)
    requires Evolves(NARROW, TwoUp(), ss) && ss[0] == START
    ensures ss[3] == Risen(2)
  {
    var ps := TwoUp();
    NextPress(NARROW, ps, ss, 0);
    NextRise(ps, ss, 1, 0);
    NextRise(ps, ss, 2, 1);
  }

  /** The packets after which a first session is in the phase, with the leftover wanted. */
  function StepsTo(phase: Phase): (steps: nat) {
    match phase
    case Initial => 0
    case DrawLeft => 3
    case LeftDone => 2
    case Vertex => 3
    case DrawRight => 4
    case RightDone => 5
    case Exit => 6
  }

  /** Every such state is left by a first session, if its loop ends after some packet, as on a failing receive. */
  lemma LeftBehind(phase: Phase) returns (q: Trace, n: nat)
    ensures q.ValidFrom(Initialised(START), Bits32, NARROW) && Heard(q)
    ensures n < |q.ss| && Initialised(q.ss[n]) == Leftover(phase)
  {
    n := StepsTo(phase);
    if phase == DrawLeft {
      q := Perform(NARROW, START, TwoUp());
      TwoUpSteps(q.ss);
    } else {
      q := Perform(NARROW, START, GestureInSix());
      SixSteps(q.ss);
    }
  }
}
