/** What an accepted gesture is, for every run of the recogniser. */
module GestureTheorems {
  import opened MousePacket
  import opened Gesture
  import opened GestureHistory
  import opened GestureRuns

  // ----- Stroke geometry ----------

  /** How far a stroke stays on the steep side of the diagonal, plus what it moved against itself. */
  function Margin(side: Side, h: seq<Motion>): (margin: int) {
    match side
    case Left => Total(NetY, h) - Total(NetX, h) + Total(Drop, h)
    case Right => Total(Rise, h) - Total(NetY, h) - Total(NetX, h)
  }

  lemma MarginConcat(side: Side, a: seq<Motion>, b: seq<Motion>)
    ensures Margin(side, a + b) == Margin(side, a) + Margin(side, b)
  {
    TotalConcat(NetX, a, b);
    TotalConcat(NetY, a, b);
    TotalConcat(Against(side), a, b);
  }

  /** Either slope test gives a window a margin, also when the window moved backwards or not at all. */
  lemma WindowMargin(side: Side, w: seq<Motion>)
    requires Passes(side, w) || Steep(side, w)
    ensures Margin(side, w) >= 0
  {
    TotalSigns(w);
  }

  lemma PrefixWindowsPass(side: Side, h: seq<Motion>, n: nat)
    requires WindowsPass(side, h) && n <= |h|
    ensures WindowsPass(side, h[..n])
  {
    forall k: nat | HasWindow(h[..n], k)
      ensures Passes(side, ClosedWindow(h[..n], k))
    {
      assert HasWindow(h, k) && ClosedWindow(h[..n], k) == ClosedWindow(h, k);
    }
  }

  /** The local tests add up: the closed windows of a stroke together have a margin. */
  lemma {:induction false} ClosedMargin(side: Side, h: seq<Motion>)
    requires WindowsPass(side, h) && |h| % 20 == 0
    ensures Margin(side, h) >= 0
  {
    if h != [] {
      var n := |h| - 20;
      var k := n / 20;
      assert 20 * k == n;
      assert HasWindow(h, k) && ClosedWindow(h, k) == h[n..];
      PrefixWindowsPass(side, h, n);
      ClosedMargin(side, h[..n]);
      WindowMargin(side, h[n..]);
      MarginConcat(side, h[..n], h[n..]);
      assert h == h[..n] + h[n..];
    }
  }

  /** The closed windows and the open one together: an accepted stroke has a margin. */
  lemma AcceptedMargin(side: Side, cfg: Config, h: seq<Motion>)
    requires Accepted(side, cfg, h)
    ensures Margin(side, h) >= 0
  {
    var n := |h| - |h| % 20;
    var closed, open := h[..n], OpenWindow(h);
    assert h == closed + open && n % 20 == 0;
    PrefixWindowsPass(side, h, n);
    ClosedMargin(side, closed);
    if open != [] {
      WindowMargin(side, open);
    }
    MarginConcat(side, closed, open);
  }

  /** Stroke geometry: an accepted stroke is long enough, hardly goes back, and is at least as steep as a diagonal. */
  lemma StrokeGeometry(side: Side, cfg: Config, h: seq<Motion>)
    requires Accepted(side, cfg, h)
    ensures Total(NetX, h) >= cfg.xLen
    ensures Total(Back, h) <= cfg.tol && Total(Against(side), h) <= cfg.tol
    ensures side == Left ==> Total(NetY, h) >= Total(NetX, h) - cfg.tol
    ensures side == Right ==> Total(NetX, h) + Total(NetY, h) <= cfg.tol
  {
    AcceptedMargin(side, cfg, h);
  }

  // ----- When a stroke is accepted ----------

  /** In every session, a stroke is declared done at exactly the packet that completes an accepted history. */
  lemma StrokeAcceptance(cfg: Config, r: Trace, side: Side, n: nat)
    requires r.Valid(Unbounded, cfg) && n < |r.ps| && r.Settled(n) && r.ss[n].phase == DrawPhase(side)
    ensures r.ss[n + 1].phase == DonePhase(side)
            <==> MovesAt(r.ps, n) && Accepted(side, cfg, Moves(r.ps, r.since[n], n + 1))
  {
    var s, p, h := r.ss[n], r.ps[n], Recent(r, n);
    AccumulatorsRefineHistory(cfg, r, n);
    HeldIsTracked(Unbounded, cfg, r, n);
    assert r.StepAt(Unbounded, cfg, n);
    if IsMotion(s.lb, s.rb, p) {
      DrawMotion(cfg, side, s.lb, s.rb, h, p);
    } else {
      ButtonWhileDrawing(cfg, side, s, p);
    }
  }

  lemma ButtonWhileDrawing(cfg: Config, side: Side, s: Tracker, p: Packet)
    requires s.phase == DrawPhase(side) && !IsMotion(s.lb, s.rb, p)
    ensures Step(Unbounded, cfg, s, p).phase != DonePhase(side)
  {
  }

  // ----- The machine without accumulators ----------

  function AfterLeft(phase: Phase, down: bool): (next: Phase) {
    if down then
      if phase == Initial || phase == Vertex then DrawLeft else if phase == RightDone then Initial else phase
    else if phase == DrawLeft then Initial
    else if phase == LeftDone then Vertex
    else phase
  }

  function AfterRight(phase: Phase, down: bool): (next: Phase) {
    if down then
      if phase == LeftDone then Initial else if phase == Vertex then DrawRight else phase
    else if phase == DrawRight then Initial
    else if phase == RightDone then Exit
    else phase
  }

  /** What the whole history h, its last motion included, makes of a phase. */
  ghost function AfterMotion(cfg: Config, phase: Phase, h: seq<Motion>): (next: Phase) {
    match phase
    case DrawLeft => if Accepted(Left, cfg, h) then LeftDone else DrawLeft
    case LeftDone => if Tidy(Left, cfg.tol, h) then LeftDone else DrawLeft
    case Vertex => if Still(cfg.tol, h) then Vertex else Initial
    case DrawRight =>
      if Accepted(Right, cfg, h) then RightDone else if Tidy(Right, cfg.tol, h) then DrawRight else Initial
    case RightDone => if Tidy(Right, cfg.tol, h) then RightDone else Initial
    case _ => phase
  }

  /** The next phase, from the phase, the motions since the last reset, the buttons held and the packet. */
  ghost function PhaseLaw(cfg: Config, phase: Phase, h: seq<Motion>, held: (bool, bool), p: Packet): (next: Phase) {
    if p.lb != held.0 then AfterLeft(phase, p.lb)
    else if p.rb != held.1 then AfterRight(phase, p.rb)
    else AfterMotion(cfg, phase, h + [MotionOf(p)])
  }

  lemma HoldLaw(cfg: Config, s: Tracker, h: seq<Motion>, p: Packet)
    requires Summarises(cfg, s, h) && IsMotion(s.lb, s.rb, p) && (s.phase == LeftDone || s.phase == RightDone)
    ensures Step(Unbounded, cfg, s, p).phase == AfterMotion(cfg, s.phase, h + [MotionOf(p)])
  {
    var (t, e) := MotionEvent(Unbounded, cfg, s, p);
    StrokeMotion(cfg, s.phase, s.lb, s.rb, h, p);
    assert Step(Unbounded, cfg, s, p).phase == Next(t, e).0;
  }

  lemma IdleLaw(cfg: Config, s: Tracker, h: seq<Motion>, p: Packet)
    requires Summarises(cfg, s, h) && IsMotion(s.lb, s.rb, p) && !OnStroke(s.phase)
    ensures Step(Unbounded, cfg, s, p).phase == AfterMotion(cfg, s.phase, h + [MotionOf(p)])
  {
    var (t, e) := MotionEvent(Unbounded, cfg, s, p);
    IdleMotion(cfg, s.phase, s.lb, s.rb, h, p);
    assert Step(Unbounded, cfg, s, p).phase == Next(t, e).0;
  }

  lemma MotionLaw(cfg: Config, s: Tracker, h: seq<Motion>, p: Packet)
    requires Summarises(cfg, s, h) && IsMotion(s.lb, s.rb, p)
    ensures Step(Unbounded, cfg, s, p).phase == AfterMotion(cfg, s.phase, h + [MotionOf(p)])
  {
    if s.phase == DrawLeft || s.phase == DrawRight {
      DrawMotion(cfg, SideOf(s.phase), s.lb, s.rb, h, p);
    } else if OnStroke(s.phase) {
      HoldLaw(cfg, s, h, p);
    } else {
      IdleLaw(cfg, s, h, p);
    }
  }

  lemma ButtonLaw(cfg: Config, s: Tracker, h: seq<Motion>, p: Packet)
    requires !IsMotion(s.lb, s.rb, p)
    ensures Step(Unbounded, cfg, s, p).phase == PhaseLaw(cfg, s.phase, h, (s.lb, s.rb), p)
  {
    var (t, e) := ButtonEvent(s, p);
    assert Step(Unbounded, cfg, s, p).phase == Next(t, e).0;
  }

  /** Every phase of every session follows from whole histories alone: the accumulators decide nothing more. */
  lemma PhaseFollowsHistory(cfg: Config, r: Trace, n: nat)
    requires r.Valid(Unbounded, cfg) && n < |r.ps| && r.Settled(n)
    ensures r.ss[n + 1].phase == PhaseLaw(cfg, r.ss[n].phase, Recent(r, n), Held(r.ps, n), r.ps[n])
  {
    AccumulatorsRefineHistory(cfg, r, n);
    HeldIsTracked(Unbounded, cfg, r, n);
    assert r.StepAt(Unbounded, cfg, n);
    if MovesAt(r.ps, n) {
      MotionLaw(cfg, r.ss[n], Recent(r, n), r.ps[n]);
    } else {
      ButtonLaw(cfg, r.ss[n], Recent(r, n), r.ps[n]);
    }
  }

  /** A drawn stroke starts over, without leaving its phase, when it is spoilt or long enough but not accepted. */
  ghost predicate StartsOver(cfg: Config, phase: Phase, h: seq<Motion>) {
    (phase == DrawLeft || phase == DrawRight) && (!Tidy(SideOf(phase), cfg.tol, h) || Total(NetX, h) >= cfg.xLen)
  }

  lemma StrokeResets(cfg: Config, s: Tracker, h: seq<Motion>, p: Packet)
    requires Summarises(cfg, s, h) && IsMotion(s.lb, s.rb, p) && OnStroke(s.phase)
    ensures Resets(Unbounded, cfg, s, p)
            <==> Step(Unbounded, cfg, s, p).phase != s.phase || StartsOver(cfg, s.phase, h + [MotionOf(p)])
  {
    StrokeMotion(cfg, s.phase, s.lb, s.rb, h, p);
  }

  lemma MotionResets(cfg: Config, s: Tracker, h: seq<Motion>, p: Packet)
    requires Summarises(cfg, s, h) && IsMotion(s.lb, s.rb, p)
    ensures Resets(Unbounded, cfg, s, p)
            <==> Step(Unbounded, cfg, s, p).phase != s.phase || StartsOver(cfg, s.phase, h + [MotionOf(p)])
  {
    if OnStroke(s.phase) {
      StrokeResets(cfg, s, h, p);
    } else {
      IdleMotion(cfg, s.phase, s.lb, s.rb, h, p);
    }
  }

  lemma ButtonResets(cfg: Config, s: Tracker, p: Packet)
    requires !IsMotion(s.lb, s.rb, p)
    ensures Resets(Unbounded, cfg, s, p) <==> Step(Unbounded, cfg, s, p).phase != s.phase
  {
    var (t, e) := ButtonEvent(s, p);
    assert Step(Unbounded, cfg, s, p).phase == Next(t, e).0;
  }

  /** When the history is cut: at every change of phase, and when a stroke starts over. */
  lemma ResetsFollowHistory(cfg: Config, r: Trace, n: nat)
    requires r.Valid(Unbounded, cfg) && n < |r.ps| && r.Settled(n)
    ensures r.since[n + 1] == n + 1
            <==> || r.ss[n + 1].phase != r.ss[n].phase
                 || (MovesAt(r.ps, n) && StartsOver(cfg, r.ss[n].phase, Recent(r, n) + [MotionOf(r.ps[n])]))
  {
    AccumulatorsRefineHistory(cfg, r, n);
    HeldIsTracked(Unbounded, cfg, r, n);
    assert r.StepAt(Unbounded, cfg, n);
    if MovesAt(r.ps, n) {
      MotionResets(cfg, r.ss[n], Recent(r, n), r.ps[n]);
    } else {
      ButtonResets(cfg, r.ss[n], r.ps[n]);
    }
  }

  // ----- Whole gestures ----------

  /** Between resets the phase does not change, and the reset itself is the packet just before. */
  lemma {:induction false} PhaseSinceReset(cfg: Config, r: Trace, n: nat)
    requires r.Valid(Unbounded, cfg) && n <= |r.ps|
    ensures var i := r.since[n];
            && (forall k | i <= k <= n :: r.ss[k].phase == r.ss[n].phase)
            && r.since[i] == i
  {
    if n > 0 {
      PhaseSinceReset(cfg, r, n - 1);
      assert r.StepAt(Unbounded, cfg, n - 1);
      OnlyResetsChangePhase(cfg, r.ss[n - 1], r.ps[n - 1], r.ss[n], r.since[n] == n);
    }
  }

  lemma OnlyResetsChangePhase(cfg: Config, s: Tracker, p: Packet, t: Tracker, reset: bool)
    requires Follows(Unbounded, cfg, s, p, t, reset)
    ensures !reset ==> t.phase == s.phase
  {
    var (u, e) := Classify(Unbounded, cfg, s, p);
    ButtonEvents(Unbounded, cfg, s, p);
    NoResetNoChange(u, e);
  }

  lemma NoResetNoChange(s: Tracker, e: Event)
    ensures !Next(s, e).1 ==> React(s, e).phase == s.phase
  {
  }

  /** From where, and by what, a reset can lead into each phase of the second half of the gesture. */
  lemma Arrivals(cfg: Config, s: Tracker, p: Packet, t: Tracker)
    requires Follows(Unbounded, cfg, s, p, t, true)
    ensures match t.phase
            case LeftDone => s.phase == DrawLeft
            case Vertex => s.phase == LeftDone && s.lb && !p.lb
            case DrawRight => s.phase == DrawRight || (s.phase == Vertex && !s.rb && p.rb)
            case RightDone => s.phase == DrawRight
            case Exit => s.phase == RightDone && s.rb && !p.rb
            case _ => true
  {
    var (u, e) := Classify(Unbounded, cfg, s, p);
    assert u.phase == s.phase;
    ButtonEvents(Unbounded, cfg, s, p);
  }

  ghost predicate StaysIn(r: Trace, i: nat, j: nat, phase: Phase)
    requires j <= |r.ss|
  {
    forall k | i <= k < j :: r.ss[k].phase == phase
  }

  /** Where the pieces of a gesture begin: each field counts the packets consumed before that piece. */
  datatype Legs = Legs(left: nat, corner: nat, vertex: nat, press: nat, right: nat, hold: nat, exit: nat) {
    predicate Ordered(r: Trace) {
      && left < corner < vertex < press <= right < hold < exit <= |r.ps| < |r.ss|
    }

    /** An accepted left stroke, held until the left button goes up. */
    ghost predicate LeftHalf(cfg: Config, r: Trace)
      requires Ordered(r)
    {
      && StaysIn(r, left, corner, DrawLeft) && StaysIn(r, corner, vertex, LeftDone)
      && Accepted(Left, cfg, Moves(r.ps, left, corner))
      && Tidy(Left, cfg.tol, Moves(r.ps, corner, vertex - 1))
      && r.ss[vertex - 1].lb && !r.ps[vertex - 1].lb
    }

    /** A nearly still vertex, until the right button goes down. */
    ghost predicate Middle(cfg: Config, r: Trace)
      requires Ordered(r)
    {
      && StaysIn(r, vertex, press, Vertex)
      && Still(cfg.tol, Moves(r.ps, vertex, press - 1))
      && !r.ss[press - 1].rb && r.ps[press - 1].rb
    }

    /** An accepted right stroke, held until the right button goes up. */
    ghost predicate RightHalf(cfg: Config, r: Trace)
      requires Ordered(r)
    {
      && StaysIn(r, press, hold, DrawRight) && StaysIn(r, hold, exit, RightDone)
      && Accepted(Right, cfg, Moves(r.ps, right, hold))
      && Tidy(Right, cfg.tol, Moves(r.ps, hold, exit - 1))
      && r.ss[exit - 1].rb && !r.ps[exit - 1].rb
      && r.ss[exit].phase == Exit
    }
  }

  ghost predicate IsGesture(cfg: Config, r: Trace, g: Legs) {
    g.Ordered(r) && g.LeftHalf(cfg, r) && g.Middle(cfg, r) && g.RightHalf(cfg, r)
  }

  /** Where every gesture is still to be drawn: before it, or at its first stroke with nothing counted yet. */
  predicate Unbegun(s: Tracker) {
    s.phase == Initial || (s.phase == DrawLeft && Cleared(s))
  }

  predicate FirstReset(r: Trace, n: nat)
    requires n < |r.since|
  {
    0 < n && r.since[n] == n && r.since[n - 1] == 0
  }

  /** What the session found takes it no further: nothing was begun, or its stroke starts over or is given up. */
  ghost predicate FromScratch(r: Trace)
    requires 0 < |r.ss| == |r.since|
  {
    || Unbegun(r.ss[0])
    || (&& (r.ss[0].phase == DrawLeft || r.ss[0].phase == DrawRight)
        && forall n: nat | n < |r.ss| && FirstReset(r, n) :: r.ss[n].phase == Initial || r.ss[n].phase == DrawLeft)
  }

  /** So the phase before a later one of the gesture was entered in the session. */
  lemma EnteredBefore(cfg: Config, r: Trace, n: nat)
    requires r.Valid(Unbounded, cfg) && FromScratch(r) && 0 < n <= |r.ps| && r.since[n] == n
    requires r.ss[n].phase != Initial && r.ss[n].phase != DrawLeft
    ensures r.Settled(n - 1) && (r.ss[n].phase != LeftDone ==> r.since[n - 1] > 0)
  {
    PhaseSinceReset(cfg, r, n - 1);
    assert r.StepAt(Unbounded, cfg, n - 1);
    Arrivals(cfg, r.ss[n - 1], r.ps[n - 1], r.ss[n]);
    assert r.since[n - 1] == 0 ==> FirstReset(r, n);
  }

  lemma RecentIsAdmissible(cfg: Config, r: Trace, n: nat)
    requires r.Valid(Unbounded, cfg) && n <= |r.ps| && r.Settled(n)
    ensures Admissible(cfg, r.ss[n].phase, Moves(r.ps, r.since[n], n))
  {
    AccumulatorsRefineHistory(cfg, r, n);
  }

  /** Where the reset that n goes back to came from. */
  lemma ArrivedFrom(cfg: Config, r: Trace, i: nat)
    requires r.Valid(Unbounded, cfg) && 0 < i <= |r.ps| && r.since[i] == i
    ensures match r.ss[i].phase
            case LeftDone => r.ss[i - 1].phase == DrawLeft
            case Vertex => r.ss[i - 1].phase == LeftDone && r.ss[i - 1].lb && !r.ps[i - 1].lb
            case DrawRight => r.ss[i - 1].phase == DrawRight
                              || (r.ss[i - 1].phase == Vertex && !r.ss[i - 1].rb && r.ps[i - 1].rb)
            case RightDone => r.ss[i - 1].phase == DrawRight
            case Exit => r.ss[i - 1].phase == RightDone && r.ss[i - 1].rb && !r.ps[i - 1].rb
            case _ => true
  {
    assert r.StepAt(Unbounded, cfg, i - 1);
    Arrivals(cfg, r.ss[i - 1], r.ps[i - 1], r.ss[i]);
  }

  /** One leg back: a phase entered in the session began at a reset, which came from the packet before it. */
  lemma LegBack(cfg: Config, r: Trace, n: nat) returns (i: nat)
    requires r.Valid(Unbounded, cfg) && FromScratch(r) && n <= |r.ps| && r.since[n] > 0
    requires r.ss[n].phase != Initial && r.ss[n].phase != DrawLeft
    ensures i == r.since[n] && 0 < i <= n
    ensures StaysIn(r, i, n + 1, r.ss[n].phase)
    ensures Admissible(cfg, r.ss[n].phase, Moves(r.ps, i, n))
    ensures r.Settled(i - 1) && (r.ss[n].phase != LeftDone ==> r.since[i - 1] > 0)
    ensures match r.ss[n].phase
            case LeftDone => r.ss[i - 1].phase == DrawLeft
            case Vertex => r.ss[i - 1].phase == LeftDone && r.ss[i - 1].lb && !r.ps[i - 1].lb
            case DrawRight => r.ss[i - 1].phase == DrawRight
                              || (r.ss[i - 1].phase == Vertex && !r.ss[i - 1].rb && r.ps[i - 1].rb)
            case RightDone => r.ss[i - 1].phase == DrawRight
            case Exit => r.ss[i - 1].phase == RightDone && r.ss[i - 1].rb && !r.ps[i - 1].rb
            case _ => true
  {
    i := r.since[n];
    RecentIsAdmissible(cfg, r, n);
    PhaseSinceReset(cfg, r, n);
    ArrivedFrom(cfg, r, i);
    EnteredBefore(cfg, r, i);
  }

  /** A stroke back: from a moment at which it is held to where its last attempt began, perhaps with the session. */
  lemma StrokeBack(cfg: Config, r: Trace, side: Side, n: nat) returns (start: nat, corner: nat)
    requires r.Valid(Unbounded, cfg) && FromScratch(r) && n <= |r.ps| && r.since[n] > 0
    requires r.ss[n].phase == DonePhase(side)
    ensures start < corner <= n && r.Settled(corner - 1) && start == r.since[corner - 1]
    ensures r.ss[corner - 1].phase == DrawPhase(side) && (side == Right ==> start > 0)
    ensures StaysIn(r, start, corner, DrawPhase(side)) && StaysIn(r, corner, n + 1, DonePhase(side))
    ensures Accepted(side, cfg, Moves(r.ps, start, corner)) && Tidy(side, cfg.tol, Moves(r.ps, corner, n))
  {
    corner := LegBack(cfg, r, n);
    start := r.since[corner - 1];
    PhaseSinceReset(cfg, r, corner - 1);
    StrokeAcceptance(cfg, r, side, corner - 1);
  }

  /** The right drawing phase goes back to the press of the right button, over the strokes it rejected. */
  lemma {:induction false} PressBack(cfg: Config, r: Trace, n: nat) returns (d: nat)
    requires r.Valid(Unbounded, cfg) && FromScratch(r) && n <= |r.ps| && r.since[n] > 0
    requires r.ss[n].phase == DrawRight
    ensures 0 < d <= r.since[n] <= n
    ensures StaysIn(r, d, n + 1, DrawRight)
    ensures r.ss[d - 1].phase == Vertex && !r.ss[d - 1].rb && r.ps[d - 1].rb && r.since[d - 1] > 0
  {
    var i := LegBack(cfg, r, n);
    if r.ss[i - 1].phase == DrawRight {
      d := PressBack(cfg, r, i - 1);
    } else {
      d := i;
    }
  }

  /** From the exit back to the press of the right button. */
  lemma RightHalfBack(cfg: Config, r: Trace, n: nat) returns (press: nat, right: nat, hold: nat, exit: nat)
    requires r.Valid(Unbounded, cfg) && FromScratch(r) && n <= |r.ps| && r.ss[n].phase == Exit
    ensures 0 < press <= right < hold < exit <= n
    ensures StaysIn(r, press, hold, DrawRight) && StaysIn(r, hold, exit, RightDone)
    ensures Accepted(Right, cfg, Moves(r.ps, right, hold))
    ensures Tidy(Right, cfg.tol, Moves(r.ps, hold, exit - 1))
    ensures r.ss[exit - 1].rb && !r.ps[exit - 1].rb && r.ss[exit].phase == Exit
    ensures r.ss[press - 1].phase == Vertex && !r.ss[press - 1].rb && r.ps[press - 1].rb && r.since[press - 1] > 0
  {
    PhaseSinceReset(cfg, r, n);
    exit := LegBack(cfg, r, n);
    right, hold := StrokeBack(cfg, r, Right, exit - 1);
    press := PressBack(cfg, r, hold - 1);
  }

  /** From the press of the right button back to the release of the left one. */
  lemma MiddleBack(cfg: Config, r: Trace, press: nat) returns (vertex: nat)
    requires r.Valid(Unbounded, cfg) && FromScratch(r)
    requires 0 < press <= |r.ps| && r.ss[press - 1].phase == Vertex && r.since[press - 1] > 0
    ensures 0 < vertex < press
    ensures StaysIn(r, vertex, press, Vertex) && Still(cfg.tol, Moves(r.ps, vertex, press - 1))
    ensures r.ss[vertex - 1].phase == LeftDone && r.ss[vertex - 1].lb && !r.ps[vertex - 1].lb
    ensures r.since[vertex - 1] > 0
  {
    vertex := LegBack(cfg, r, press - 1);
  }

  lemma GestureBack(cfg: Config, r: Trace, n: nat) returns (g: Legs)
    requires r.Valid(Unbounded, cfg) && FromScratch(r) && n <= |r.ps| && r.ss[n].phase == Exit
    ensures g.Ordered(r) && g.exit <= n && g.LeftHalf(cfg, r) && g.Middle(cfg, r) && g.RightHalf(cfg, r)
  {
    var press, right, hold, exit := RightHalfBack(cfg, r, n);
    var vertex := MiddleBack(cfg, r, press);
    var left, corner := StrokeBack(cfg, r, Left, vertex - 1);
    g := Legs(left, corner, vertex, press, right, hold, exit);
  }

  /** Whole-gesture soundness: a session that starts from scratch and reaches the exit phase contains a whole one. */
  lemma GestureSoundness(cfg: Config, r: Trace, n: nat)
    requires r.Valid(Unbounded, cfg) && FromScratch(r) && n <= |r.ps| && r.ss[n].phase == Exit
    ensures exists g: Legs :: IsGesture(cfg, r, g) && g.exit <= n
  {
    var g := GestureBack(cfg, r, n);
    assert IsGesture(cfg, r, g);
  }
}
