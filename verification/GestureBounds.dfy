/** Bounds that hold in every reachable state, and why 32-bit accumulators are enough. */
module GestureBounds {
  import opened MousePacket
  import opened Gesture
  import opened GestureHistory
  import opened GestureRuns
  import opened GestureTheorems

  /** The buttons a phase presupposes. */
  predicate ButtonsFit(s: Tracker) {
    match s.phase
    case DrawLeft | LeftDone => s.lb
    case Vertex => !s.lb
    case DrawRight | RightDone => s.rb
    case _ => true
  }

  lemma ButtonsFitStep(w: Width, cfg: Config, s: Tracker, p: Packet)
    requires ButtonsFit(s)
    ensures ButtonsFit(Step(w, cfg, s, p))
  {
    var (t, e) := Classify(w, cfg, s, p);
    ButtonEvents(w, cfg, s, p);
    ReactKeepsButtons(t, e);
    assert ButtonsFit(React(t, e));
  }

  /** Button and phase agree throughout a session that began so, although packets can report changes it ignores. */
  lemma {:induction false} ButtonsMatchPhase(w: Width, cfg: Config, r: Trace, n: nat)
    requires r.Valid(w, cfg) && n <= |r.ps| && ButtonsFit(r.ss[0])
    ensures ButtonsFit(r.ss[n])
  {
    if n > 0 {
      ButtonsMatchPhase(w, cfg, r, n - 1);
      ButtonsFitStep(w, cfg, r.ss[n - 1], r.ps[n - 1]);
      assert r.StepAt(w, cfg, n - 1);
    }
  }

  function Max(a: int, b: int): (larger: int) {
    if a < b then b else a
  }

  predicate Within(s: Tracker, cfg: Config) {
    && s.count < PACKET_SLOPE_COUNT
    && 0 <= s.xTol <= cfg.tol && 0 <= s.yTol <= cfg.tol
    && (s.phase == DrawLeft || s.phase == DrawRight ==> 0 <= s.x + cfg.tol && s.x <= Max(cfg.xLen - 1, 0))
    && (s.phase == Vertex ==> 0 <= s.x + cfg.tol <= 2 * cfg.tol && 0 <= s.y + cfg.tol <= 2 * cfg.tol)
  }

  lemma SummaryWithin(cfg: Config, s: Tracker, h: seq<Motion>)
    requires Summarises(cfg, s, h)
    ensures Within(s, cfg)
  {
    TotalSigns(h);
    assert h[..|h|] == h;
  }

  /** Bounds over runs of any length: the window count never skips 20 and the tolerance sums never leave their bound. */
  lemma GestureStaysWithin(cfg: Config, r: Trace, n: nat)
    requires r.Valid(Unbounded, cfg) && n <= |r.ps| && r.Settled(n)
    ensures Within(r.ss[n], cfg)
  {
    AccumulatorsRefineHistory(cfg, r, n);
    SummaryWithin(cfg, r.ss[n], Recent(r, n));
  }

  // ----- Widths ----------

  ghost predicate Bounded(h: seq<Motion>, b: int) {
    forall m | m in h :: -b <= m.dx <= b && -b <= m.dy <= b
  }

  lemma {:induction false} NetBounded(h: seq<Motion>, b: int)
    requires b >= 0 && Bounded(h, b)
    ensures -(b * |h|) <= Total(NetX, h) <= b * |h|
    ensures -(b * |h|) <= Total(NetY, h) <= b * |h|
  {
    if h != [] {
      var h' := h[..|h| - 1];
      NetBounded(h', b);
      assert b * |h| == b * |h'| + b;
    }
  }

  lemma {:induction false} MovesBounded(ps: seq<Packet>, i: nat, j: nat, b: int)
    requires j <= |ps|
    requires forall p | p in ps :: -b <= p.dx <= b && -b <= p.dy <= b
    ensures Bounded(Moves(ps, i, j), b)
    ensures |Moves(ps, i, j)| <= j
  {
    if i < j {
      MovesBounded(ps, i, j - 1, b);
    }
  }

  /** Agreement of the two arithmetics on everything the machine's decisions read. */
  predicate Agree(s: Tracker, t: Tracker) {
    && s.phase == t.phase && s.lb == t.lb && s.rb == t.rb
    && s.count == t.count && s.xTol == t.xTol && s.yTol == t.yTol
    && (s.phase == DrawLeft || s.phase == DrawRight ==> s.x == t.x)
    && (OnStroke(s.phase) ==> s.lineX == t.lineX && s.lineY == t.lineY)
  }

  /** The slope window of a stroke is shorter than twenty packets, and no longer than they can have made it. */
  predicate WindowFits(s: Tracker) {
    OnStroke(s.phase) ==> && s.count < PACKET_SLOPE_COUNT
                          && -0x8000 * s.count <= s.lineX <= 0x8000 * s.count
                          && -0x8000 * s.count <= s.lineY <= 0x8000 * s.count
  }

  /** What every packet keeps, whatever a session found when it started; no history is needed for it. */
  predicate Steady(cfg: Config, s: Tracker) {
    && WindowFits(s)
    && 0 <= s.xTol <= cfg.tol && 0 <= s.yTol <= cfg.tol
    && (s.phase == DrawLeft || s.phase == DrawRight ==> -s.xTol <= s.x <= Max(cfg.xLen - 1, 0))
  }

  lemma ReactIsSteady(cfg: Config, s: Tracker, e: Event)
    requires !Next(s, e).1 ==> Steady(cfg, s)
    ensures Steady(cfg, React(s, e))
  {
  }

  /** What holds between the addition of a motion and the tests. */
  predicate Added(u: Tracker) {
    && OnStroke(u.phase) && u.count <= PACKET_SLOPE_COUNT && 0 <= u.xTol && 0 <= u.yTol
    && -0x8000 * u.count <= u.lineX <= 0x8000 * u.count && -0x8000 * u.count <= u.lineY <= 0x8000 * u.count
    && (u.phase == DrawLeft || u.phase == DrawRight ==> -u.xTol <= u.x)
  }

  lemma AdditionIsSteady(cfg: Config, s: Tracker, p: Packet)
    requires Steady(cfg, s) && OnStroke(s.phase)
    ensures Added(Summed(s, p)) && Summed(s, p).phase == s.phase
  {
  }

  lemma TestsAreSteady(cfg: Config, u: Tracker, flat: bool)
    requires Added(u)
    ensures var (t, e) := StrokeEvent(cfg, u, flat);
            t.phase == u.phase && (!Next(t, e).1 ==> Steady(cfg, t))
  {
  }

  lemma StrokeIsSteady(cfg: Config, s: Tracker, p: Packet)
    requires Steady(cfg, s) && OnStroke(s.phase)
    ensures var (t, e) := MotionEvent(Unbounded, cfg, s, p);
            t.phase == s.phase && (!Next(t, e).1 ==> Steady(cfg, t))
  {
    var u := Summed(s, p);
    AdditionIsSteady(cfg, s, p);
    TestsAreSteady(cfg, u, Flat(s.phase, Slope(u)));
    StrokeEventOf(cfg, s, p);
  }

  lemma StepIsSteady(cfg: Config, s: Tracker, p: Packet)
    requires Steady(cfg, s)
    ensures Steady(cfg, Step(Unbounded, cfg, s, p))
  {
    var (t, e) := Classify(Unbounded, cfg, s, p);
    if IsMotion(s.lb, s.rb, p) && OnStroke(s.phase) {
      StrokeIsSteady(cfg, s, p);
    }
    ReactIsSteady(cfg, t, e);
  }

  /** Bounds over sessions of any length, also of one that finds a slope window left over. */
  lemma {:induction false} StaysSteady(cfg: Config, r: Trace, n: nat)
    requires r.Valid(Unbounded, cfg) && n <= |r.ps| && WindowFits(r.ss[0])
    ensures Steady(cfg, r.ss[n])
  {
    if n > 0 {
      StaysSteady(cfg, r, n - 1);
      StepIsSteady(cfg, r.ss[n - 1], r.ps[n - 1]);
      assert r.StepAt(Unbounded, cfg, n - 1);
    }
  }

  lemma NoWrap(v: int)
    ensures -0x8000_0000 <= v < 0x8000_0000 ==> Bits32.Signed(v) == v
    ensures 0 <= v < 0x1_0000_0000 ==> Bits32.Unsigned(v) == v
  {
  }

  /** Displacing both machines keeps what is read in agreement. */
  lemma AgreeDisplaced(cfg: Config, s: Tracker, t: Tracker, p: Packet)
    requires Agree(s, t) && Steady(cfg, s)
    ensures Agree(Displaced(Unbounded, s, p), Displaced(Bits32, t, p))
  {
    NoWrap(s.x + p.dx);
    NoWrap(s.lineX + p.dx);
    NoWrap(s.lineY + p.dy);
  }

  lemma AgreeTolerated(cfg: Config, s: Tracker, t: Tracker, dx: int, dy: int)
    requires Agree(s, t) && 0 <= s.xTol <= cfg.tol && 0 <= s.yTol <= cfg.tol && 0 <= dx <= 0x8000 && 0 <= dy <= 0x8000
    ensures Agree(Tolerated(Unbounded, s, dx, dy), Tolerated(Bits32, t, dx, dy))
  {
    NoWrap(s.xTol + dx);
    NoWrap(s.yTol + dy);
  }

  /** The machines may disagree on whether the line is long enough, but only where nobody asks. */
  predicate SameEvent(phase: Phase, e: Event, f: Event) {
    e == f || (phase != DrawLeft && phase != DrawRight && GoesOn(e) && GoesOn(f))
  }

  predicate GoesOn(e: Event) {
    e == LineComplete || e == ContinueDraw
  }

  lemma AgreeChecked(cfg: Config, s: Tracker, t: Tracker, flat: bool)
    requires Agree(s, t)
    ensures var (s', e) := StrokeEvent(cfg, s, flat);
            var (t', f) := StrokeEvent(cfg, t, flat);
            Agree(s', t') && SameEvent(s.phase, e, f)
  {
  }

  function FlatOn(side: Side, s: Tracker): (flat: bool) {
    if side == Left then Slope(s).AtMostOne() else Slope(s).AtLeastMinusOne()
  }

  lemma AgreeStroke(cfg: Config, s: Tracker, t: Tracker, dx: int, dy: int, side: Side)
    requires Agree(s, t) && 0 <= s.xTol <= cfg.tol && 0 <= s.yTol <= cfg.tol && 0 <= dx <= 0x8000 && 0 <= dy <= 0x8000
    requires OnStroke(s.phase)
    ensures var u, v := Tolerated(Unbounded, Counted(s), dx, dy), Tolerated(Bits32, Counted(t), dx, dy);
            var (s', e) := StrokeEvent(cfg, u, FlatOn(side, u));
            var (t', f) := StrokeEvent(cfg, v, FlatOn(side, v));
            Agree(s', t') && SameEvent(s.phase, e, f)
  {
    var u, v := Tolerated(Unbounded, Counted(s), dx, dy), Tolerated(Bits32, Counted(t), dx, dy);
    AgreeTolerated(cfg, Counted(s), Counted(t), dx, dy);
    AgreeChecked(cfg, u, v, FlatOn(side, u));
  }

  lemma AgreeMotion(cfg: Config, s: Tracker, t: Tracker, p: Packet)
    requires Agree(s, t) && Steady(cfg, s)
    ensures var (s', e) := MotionEvent(Unbounded, cfg, s, p);
            var (t', f) := MotionEvent(Bits32, cfg, t, p);
            Agree(s', t') && SameEvent(s.phase, e, f)
  {
    var s1, t1 := Displaced(Unbounded, s, p), Displaced(Bits32, t, p);
    AgreeDisplaced(cfg, s, t, p);
    match s.phase {
      case DrawLeft | LeftDone => AgreeStroke(cfg, s1, t1, Loss(p.dx), Loss(p.dy), Left);
      case DrawRight | RightDone => AgreeStroke(cfg, s1, t1, Loss(p.dx), Gain(p.dy), Right);
      case Vertex => AgreeTolerated(cfg, s1, t1, Abs(p.dx), Abs(p.dy));
      case _ =>
    }
  }

  /** Reacting to the same event, or to two that nobody tells apart, keeps the agreement. */
  lemma AgreeReact(s: Tracker, t: Tracker, e: Event, f: Event)
    requires Agree(s, t) && SameEvent(s.phase, e, f)
    ensures Agree(React(s, e), React(t, f))
  {
    NextAgrees(s, t, e, f);
  }

  lemma NextAgrees(s: Tracker, t: Tracker, e: Event, f: Event)
    requires Agree(s, t) && SameEvent(s.phase, e, f)
    ensures Next(s, e) == Next(t, f)
  {
    if OnStroke(s.phase) {
      assert Slope(s) == Slope(t);
    }
  }

  lemma AgreeStep(cfg: Config, s: Tracker, t: Tracker, p: Packet)
    requires Agree(s, t) && Steady(cfg, s)
    ensures Agree(Step(Unbounded, cfg, s, p), Step(Bits32, cfg, t, p))
  {
    var (s', e) := Classify(Unbounded, cfg, s, p);
    var (t', f) := Classify(Bits32, cfg, t, p);
    if IsMotion(s.lb, s.rb, p) {
      AgreeMotion(cfg, s, t, p);
    }
    AgreeReact(s', t', e, f);
  }

  /** The same session on both machines. */
  ghost predicate SameInput(cfg: Config, r: Trace, q: Trace) {
    && r.Valid(Unbounded, cfg) && q.Valid(Bits32, cfg)
    && r.ps == q.ps && r.ss[0] == q.ss[0] && WindowFits(r.ss[0])
  }

  /** In sessions of any length the 32-bit machine goes through the same phases as one with unbounded integers. */
  lemma {:induction false} WidthDoesNotMatter(cfg: Config, r: Trace, q: Trace, n: nat)
    requires SameInput(cfg, r, q) && n <= |r.ps|
    ensures Agree(r.ss[n], q.ss[n])
  {
    if n > 0 {
      WidthDoesNotMatter(cfg, r, q, n - 1);
      StaysSteady(cfg, r, n - 1);
      AgreeStep(cfg, r.ss[n - 1], q.ss[n - 1], r.ps[n - 1]);
      assert r.StepAt(Unbounded, cfg, n - 1) && q.StepAt(Bits32, cfg, n - 1);
    }
  }

  /** What a session leaves behind is fit for the next one, whatever its arguments are. */
  lemma LeftoverFits(cfg: Config, q: Trace, n: nat)
    requires q.Valid(Bits32, cfg) && WindowFits(q.ss[0]) && n <= |q.ps|
    ensures WindowFits(Initialised(q.ss[n]))
  {
    var r := RunExists(Unbounded, cfg, q.ss[0], q.ps);
    assert SameInput(cfg, r, q);
    WidthDoesNotMatter(cfg, r, q, n);
    StaysSteady(cfg, r, n);
  }

  /** Every displacement accumulator takes the packet without leaving 32 bits. */
  predicate Fits(s: Tracker, p: Packet) {
    && -0x8000_0000 <= s.x + p.dx < 0x8000_0000 && -0x8000_0000 <= s.y + p.dy < 0x8000_0000
    && -0x8000_0000 <= s.lineX + p.dx < 0x8000_0000 && -0x8000_0000 <= s.lineY + p.dy < 0x8000_0000
  }

  lemma FitsStep(cfg: Config, s: Tracker, p: Packet)
    requires Fits(s, p) && Steady(cfg, s)
    ensures Step(Bits32, cfg, s, p) == Step(Unbounded, cfg, s, p)
  {
    assert Displaced(Bits32, s, p) == Displaced(Unbounded, s, p);
    var t := Displaced(Unbounded, s, p);
    SameTolerated(cfg, Counted(t), Loss(p.dx), Loss(p.dy));
    SameTolerated(cfg, Counted(t), Loss(p.dx), Gain(p.dy));
    SameTolerated(cfg, t, Abs(p.dx), Abs(p.dy));
    assert MotionEvent(Bits32, cfg, s, p) == MotionEvent(Unbounded, cfg, s, p);
  }

  lemma SameTolerated(cfg: Config, s: Tracker, dx: int, dy: int)
    requires 0 <= s.xTol <= cfg.tol && 0 <= s.yTol <= cfg.tol && 0 <= dx <= 0x8000 && 0 <= dy <= 0x8000
    ensures Tolerated(Bits32, s, dx, dy) == Tolerated(Unbounded, s, dx, dy)
  {
    NoWrap(s.xTol + dx);
    NoWrap(s.yTol + dy);
  }

  predicate AllDecoded(ps: seq<Packet>) {
    forall p | p in ps :: Decoded(p)
  }

  /** At most b, and m motions of a decoded packet, away from zero. */
  predicate Near(v: int, b: nat, m: nat) {
    -256 * m - b <= v <= 255 * m + b
  }

  predicate AllNear(s: Tracker, b: nat, m: nat) {
    Near(s.x, b, m) && Near(s.y, b, m) && Near(s.lineX, b, m) && Near(s.lineY, b, m)
  }

  lemma NearStep(cfg: Config, s: Tracker, p: Packet, b: nat, h: seq<Motion>)
    requires AllNear(s, b, |h|) && Decoded(p)
    ensures AllNear(Step(Unbounded, cfg, s, p), b, |Extended(s, h, p, Resets(Unbounded, cfg, s, p))|)
  {
    var (t, e) := Classify(Unbounded, cfg, s, p);
    ClassifiedNear(cfg, s, p, b, |h|);
    assert React(t, e) == Step(Unbounded, cfg, s, p);
  }

  lemma ClassifiedNear(cfg: Config, s: Tracker, p: Packet, b: nat, m: nat)
    requires AllNear(s, b, m) && Decoded(p)
    ensures AllNear(Classify(Unbounded, cfg, s, p).0, b, if IsMotion(s.lb, s.rb, p) then m + 1 else m)
  {
    if IsMotion(s.lb, s.rb, p) {
      MotionOnlyAdds(cfg, s, p);
    }
  }

  /** A motion is added to both displacements; that of the window may then be cleared. */
  lemma MotionOnlyAdds(cfg: Config, s: Tracker, p: Packet)
    ensures var t := MotionEvent(Unbounded, cfg, s, p).0;
            && t.x == s.x + p.dx && t.y == s.y + p.dy
            && ((t.lineX == s.lineX + p.dx && t.lineY == s.lineY + p.dy) || (t.lineX == 0 && t.lineY == 0))
  {
    if OnStroke(s.phase) {
      var u := Summed(s, p);
      StrokeEventOf(cfg, s, p);
      TestsOnlyClear(cfg, u, Flat(s.phase, Slope(u)));
    }
  }

  lemma TestsOnlyClear(cfg: Config, u: Tracker, flat: bool)
    ensures var t := StrokeEvent(cfg, u, flat).0;
            && t.x == u.x && t.y == u.y
            && ((t.lineX == u.lineX && t.lineY == u.lineY) || (t.lineX == 0 && t.lineY == 0))
  {
  }

  /** Displacements stay near zero, or near the slope window that the session found. */
  lemma {:induction false} StaysNear(cfg: Config, r: Trace, n: nat, b: nat)
    requires r.Valid(Unbounded, cfg) && n <= |r.ps| && AllDecoded(r.ps) && AllNear(r.ss[0], b, 0)
    ensures AllNear(r.ss[n], b, |Recent(r, n)|)
  {
    if n > 0 {
      StaysNear(cfg, r, n - 1, b);
      NearNext(cfg, r, n - 1, b);
    }
  }

  lemma NearNext(cfg: Config, r: Trace, n: nat, b: nat)
    requires r.Valid(Unbounded, cfg) && n < |r.ps| && AllDecoded(r.ps) && AllNear(r.ss[n], b, |Recent(r, n)|)
    ensures AllNear(r.ss[n + 1], b, |Recent(r, n + 1)|)
  {
    assert r.ps[n] in r.ps;
    NearStep(cfg, r.ss[n], r.ps[n], b, Recent(r, n));
    RecentStep(cfg, r, n);
    assert r.StepAt(Unbounded, cfg, n);
  }

  /** No overflow: nothing wraps as long as the window found and the motions since the last reset fit 32 bits. */
  lemma {:induction false} NoOverflow(cfg: Config, r: Trace, q: Trace, n: nat, b: nat)
    requires SameInput(cfg, r, q) && n <= |r.ps| && AllDecoded(r.ps) && AllNear(r.ss[0], b, 0)
    requires forall k: nat | k < n :: b + 256 * (|Recent(r, k)| + 1) <= 0x8000_0000
    ensures q.ss[n] == r.ss[n]
  {
    if n > 0 {
      NoOverflow(cfg, r, q, n - 1, b);
      StaysNear(cfg, r, n - 1, b);
      StaysSteady(cfg, r, n - 1);
      assert r.ps[n - 1] in r.ps;
      assert b + 256 * (|Recent(r, n - 1)| + 1) <= 0x8000_0000;
      FitsStep(cfg, r.ss[n - 1], r.ps[n - 1]);
      assert r.StepAt(Unbounded, cfg, n - 1) && q.StepAt(Bits32, cfg, n - 1);
    }
  }

  /** Tolerance sums, even between the addition and the test, stay below 512 in runs of any length. */
  lemma TolerancesStaySmall(cfg: Config, r: Trace, q: Trace, n: nat)
    requires SameInput(cfg, r, q) && n < |r.ps| && Decoded(r.ps[n])
    ensures var t := Classify(Bits32, cfg, q.ss[n], q.ps[n]).0; 0 <= t.xTol <= 511 && 0 <= t.yTol <= 511
  {
    WidthDoesNotMatter(cfg, r, q, n);
    StaysSteady(cfg, r, n);
    ToleranceOfOneMotion(cfg, q.ss[n], q.ps[n]);
  }

  lemma ToleranceOfOneMotion(cfg: Config, s: Tracker, p: Packet)
    requires 0 <= s.xTol <= cfg.tol && 0 <= s.yTol <= cfg.tol && Decoded(p)
    ensures var t := Classify(Bits32, cfg, s, p).0; 0 <= t.xTol <= 511 && 0 <= t.yTol <= 511
  {
    var t := Displaced(Bits32, s, p);
    SameTolerated(cfg, Counted(t), Loss(p.dx), Loss(p.dy));
    SameTolerated(cfg, Counted(t), Loss(p.dx), Gain(p.dy));
    SameTolerated(cfg, t, Abs(p.dx), Abs(p.dy));
  }

  // ----- The machine as built ----------

  /** An inverted V: up at least as fast as right, then down at least as fast as right, each wide enough, up to tol. */
  predicate InvertedV(cfg: Config, up: seq<Motion>, down: seq<Motion>) {
    && Total(NetX, up) >= cfg.xLen && Total(NetY, up) >= Total(NetX, up) - cfg.tol
    && Total(NetX, down) >= cfg.xLen && Total(NetX, down) + Total(NetY, down) <= cfg.tol
    && Total(Back, up) <= cfg.tol && Total(Back, down) <= cfg.tol
    && Total(Drop, up) <= cfg.tol && Total(Rise, down) <= cfg.tol
  }

  ghost predicate DrawsInvertedV(cfg: Config, r: Trace, g: Legs) {
    IsGesture(cfg, r, g) && InvertedV(cfg, Moves(r.ps, g.left, g.corner), Moves(r.ps, g.right, g.hold))
  }

  lemma GestureIsInvertedV(cfg: Config, r: Trace, g: Legs)
    requires IsGesture(cfg, r, g)
    ensures DrawsInvertedV(cfg, r, g)
  {
    StrokeGeometry(Left, cfg, Moves(r.ps, g.left, g.corner));
    StrokeGeometry(Right, cfg, Moves(r.ps, g.right, g.hold));
  }

  lemma SamePhasesSameGesture(cfg: Config, r: Trace, q: Trace, g: Legs)
    requires r.ps == q.ps && |r.ss| == |q.ss|
    requires forall k: nat | k < |r.ss| :: Agree(r.ss[k], q.ss[k])
    requires IsGesture(cfg, r, g)
    ensures IsGesture(cfg, q, g)
  {
    assert g.LeftHalf(cfg, q);
    assert g.Middle(cfg, q);
    assert g.RightHalf(cfg, q);
  }

  lemma AgreeThroughout(cfg: Config, r: Trace, q: Trace)
    requires SameInput(cfg, r, q)
    ensures forall k: nat | k < |r.ss| :: Agree(r.ss[k], q.ss[k])
  {
    forall k: nat | k < |r.ss|
      ensures Agree(r.ss[k], q.ss[k])
    {
      WidthDoesNotMatter(cfg, r, q, k);
    }
  }

  /** A session of the 32-bit machine, on unbounded integers. */
  lemma OnIntegers(cfg: Config, q: Trace) returns (r: Trace)
    requires q.Valid(Bits32, cfg) && WindowFits(q.ss[0])
    ensures r.Valid(Unbounded, cfg) && r.ps == q.ps && r.ss[0] == q.ss[0] && |r.ss| == |q.ss|
    ensures forall k: nat | k < |r.ss| :: Agree(r.ss[k], q.ss[k])
  {
    r := RunExists(Unbounded, cfg, q.ss[0], q.ps);
    AgreeThroughout(cfg, r, q);
  }

  /** The state that session k of a process finds: that of program start, or the last one of the session before. */
  function Found(qs: seq<Trace>, k: nat): (s: Tracker)
    requires k < |qs| && forall q | q in qs :: |q.ps| < |q.ss|
  {
    if k == 0 then START else qs[k - 1].ss[|qs[k - 1].ps|]
  }

  /** The sessions of one process, each with its own arguments, given up or ended after any packet. */
  ghost predicate IsProcess(cfgs: seq<Config>, qs: seq<Trace>) {
    && |cfgs| == |qs| && (forall q | q in qs :: |q.ps| < |q.ss|)
    && forall k: nat | k < |qs| :: SessionAt(cfgs, qs, k)
  }

  ghost predicate SessionAt(cfgs: seq<Config>, qs: seq<Trace>, k: nat)
    requires k < |qs| == |cfgs| && forall q | q in qs :: |q.ps| < |q.ss|
  {
    qs[k].ValidFrom(Initialised(Found(qs, k)), Bits32, cfgs[k])
  }

  lemma SessionFits(cfg: Config, s: Tracker, q: Trace)
    requires q.ValidFrom(Initialised(s), Bits32, cfg) && WindowFits(Initialised(s))
    ensures |q.ps| < |q.ss| && WindowFits(q.ss[0]) && WindowFits(Initialised(q.ss[|q.ps|]))
  {
    LeftoverFits(cfg, q, |q.ps|);
  }

  lemma NextSessionFits(cfgs: seq<Config>, qs: seq<Trace>, k: nat)
    requires IsProcess(cfgs, qs) && k + 1 < |qs| && WindowFits(Initialised(Found(qs, k)))
    ensures WindowFits(Initialised(Found(qs, k + 1)))
  {
    assert SessionAt(cfgs, qs, k);
    SessionFits(cfgs[k], Found(qs, k), qs[k]);
  }

  /** What a session of a process finds fits, by induction over the sessions before it. */
  lemma {:induction false} EverySessionFits(cfgs: seq<Config>, qs: seq<Trace>, k: nat)
    requires IsProcess(cfgs, qs) && k < |qs|
    ensures WindowFits(Initialised(Found(qs, k)))
  {
    if k > 0 {
      EverySessionFits(cfgs, qs, k - 1);
      NextSessionFits(cfgs, qs, k - 1);
    }
  }

  lemma SteadyThroughout(cfg: Config, s: Tracker, q: Trace) returns (r: Trace)
    requires q.ValidFrom(Initialised(s), Bits32, cfg) && WindowFits(Initialised(s))
    ensures r.Valid(Unbounded, cfg) && r.ps == q.ps && |r.ss| == |q.ss|
    ensures forall n: nat | n < |r.ss| :: Agree(r.ss[n], q.ss[n]) && Steady(cfg, r.ss[n])
  {
    r := OnIntegers(cfg, q);
    forall n: nat | n < |r.ss|
      ensures Steady(cfg, r.ss[n])
    {
      StaysSteady(cfg, r, n);
    }
  }

  /** In every session of every process the bounds hold, and the word width does not matter. */
  lemma EverySession(cfgs: seq<Config>, qs: seq<Trace>, k: nat) returns (r: Trace)
    requires IsProcess(cfgs, qs) && k < |qs|
    ensures r.Valid(Unbounded, cfgs[k]) && r.ps == qs[k].ps && |r.ss| == |qs[k].ss|
    ensures forall n: nat | n < |r.ss| :: Agree(r.ss[n], qs[k].ss[n]) && Steady(cfgs[k], r.ss[n])
  {
    EverySessionFits(cfgs, qs, k);
    assert SessionAt(cfgs, qs, k);
    r := SteadyThroughout(cfgs[k], Found(qs, k), qs[k]);
  }

  /** The motions a decoded packet can report. */
  predicate NineBits(m: Motion) {
    -256 <= m.dx <= 255 && -256 <= m.dy <= 255
  }

  /** With this motion the slope window that the session found is the end of the stroke. */
  predicate Spoils(cfg: Config, s: Tracker, m: Motion) {
    || Loss(m.dx) > cfg.tol
    || Value(Against(SideOf(s.phase)), m) > cfg.tol
    || !Survives(s.lineX + m.dx, Along(SideOf(s.phase), s.lineY + m.dy))
  }

  /** While drawing, one packet short of a full window that no motion can save. */
  ghost predicate Spoilt(cfg: Config, s: Tracker) {
    && (s.phase == DrawLeft || s.phase == DrawRight) && s.count == PACKET_SLOPE_COUNT - 1
    && forall m: Motion | NineBits(m) :: Spoils(cfg, s, m)
  }

  lemma SpoiltStep(cfg: Config, s: Tracker, p: Packet)
    requires Spoilt(cfg, s) && s.xTol == s.yTol == 0 && Decoded(p)
    ensures var t := Step(Unbounded, cfg, s, p);
            if Resets(Unbounded, cfg, s, p) then t.phase == Initial || t.phase == DrawLeft
            else t == s.(lb := t.lb, rb := t.rb)
  {
    var (t, e) := Classify(Unbounded, cfg, s, p);
    if IsMotion(s.lb, s.rb, p) {
      assert Spoils(cfg, s, MotionOf(p));
      QuotientsDecide(SideOf(s.phase), s.lineX + p.dx, s.lineY + p.dy);
      StrokeEventOf(cfg, s, p);
      assert e == TolFail;
    }
    assert React(t, e) == Step(Unbounded, cfg, s, p);
  }

  lemma {:induction false} SpoiltStays(cfg: Config, r: Trace, n: nat)
    requires r.Valid(Unbounded, cfg) && n <= |r.ps| && AllDecoded(r.ps) && Spoilt(cfg, r.ss[0])
    requires r.since[n] == 0
    ensures r.ss[n] == r.ss[0].(lb := r.ss[n].lb, rb := r.ss[n].rb)
  {
    if n > 0 {
      assert r.StepAt(Unbounded, cfg, n - 1) && r.ps[n - 1] in r.ps;
      SpoiltStays(cfg, r, n - 1);
      assert Spoilt(cfg, r.ss[n - 1]) by {
        assert forall m: Motion | NineBits(m) :: Spoils(cfg, r.ss[0], m) && Spoils(cfg, r.ss[n - 1], m);
      }
      SpoiltStep(cfg, r.ss[n - 1], r.ps[n - 1]);
    }
  }

  lemma SpoiltIsFromScratch(cfg: Config, r: Trace)
    requires r.Valid(Unbounded, cfg) && AllDecoded(r.ps) && Spoilt(cfg, r.ss[0])
    ensures FromScratch(r)
  {
    forall n: nat | n < |r.ss| && FirstReset(r, n)
      ensures r.ss[n].phase == Initial || r.ss[n].phase == DrawLeft
    {
      assert r.StepAt(Unbounded, cfg, n - 1) && r.ps[n - 1] in r.ps;
      SpoiltStays(cfg, r, n - 1);
      assert Spoilt(cfg, r.ss[n - 1]) by {
        assert forall m: Motion | NineBits(m) :: Spoils(cfg, r.ss[0], m) && Spoils(cfg, r.ss[n - 1], m);
      }
      SpoiltStep(cfg, r.ss[n - 1], r.ps[n - 1]);
    }
  }

  /** What a session may find without being taken further by it. */
  ghost predicate Harmless(cfg: Config, s: Tracker) {
    Unbegun(s) || (WindowFits(s) && Spoilt(cfg, s))
  }

  /** Soundness of the 32-bit machine: when it exits, a gesture in the shape of an inverted V has been drawn. */
  lemma MachineAcceptsOnlyGestures(cfg: Config, q: Trace, n: nat)
    requires q.Valid(Bits32, cfg) && Harmless(cfg, q.ss[0]) && (Unbegun(q.ss[0]) || AllDecoded(q.ps))
    requires n <= |q.ps| && q.ss[n].phase == Exit
    ensures exists g: Legs :: DrawsInvertedV(cfg, q, g) && g.exit <= n
  {
    var r := OnIntegers(cfg, q);
    if !Unbegun(q.ss[0]) {
      SpoiltIsFromScratch(cfg, r);
    }
    GestureSoundness(cfg, r, n);
    var g: Legs :| IsGesture(cfg, r, g) && g.exit <= n;
    SamePhasesSameGesture(cfg, r, q, g);
    GestureIsInvertedV(cfg, q, g);
  }
}
