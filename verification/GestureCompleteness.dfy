/** The converse of soundness: every well-drawn gesture is recognised. */
module GestureCompleteness {
  import opened Bytes
  import opened MousePacket
  import opened Gesture
  import opened GestureHistory
  import opened GestureRuns
  import opened GestureTheorems

  lemma TotalPrefix(q: Measure, h: seq<Motion>, n: nat)
    requires n <= |h| && q != NetX && q != NetY
    ensures Total(q, h[..n]) <= Total(q, h)
  {
    assert h == h[..n] + h[n..];
    TotalConcat(q, h[..n], h[n..]);
    TotalSigns(h[n..]);
  }

  /** A prefix of an admissible history is admissible, so no earlier packet can have been rejected. */
  lemma AdmissiblePrefix(cfg: Config, phase: Phase, h: seq<Motion>, n: nat)
    requires Admissible(cfg, phase, h) && n <= |h|
    ensures Admissible(cfg, phase, h[..n])
  {
    if OnStroke(phase) {
      TotalPrefix(Back, h, n);
      TotalPrefix(Against(SideOf(phase)), h, n);
      PrefixWindowsPass(SideOf(phase), h, n);
      forall k | 0 < k <= n
        ensures h[..n][..k] == h[..k]
      {
      }
    } else if phase == Vertex {
      TotalPrefix(SpanX, h, n);
      TotalPrefix(SpanY, h, n);
    }
  }

  ghost predicate AllMove(ps: seq<Packet>, i: nat, j: nat)
    requires j <= |ps|
  {
    forall k: nat | i <= k < j :: MovesAt(ps, k)
  }

  lemma {:induction false} MovesPrefix(ps: seq<Packet>, i: nat, k: nat, j: nat)
    requires i <= k <= j <= |ps| && AllMove(ps, i, j)
    ensures |Moves(ps, i, j)| == j - i
    ensures Moves(ps, i, k) == Moves(ps, i, j)[..k - i]
    decreases j
  {
    if i < j {
      assert MovesAt(ps, j - 1);
      if k < j {
        MovesPrefix(ps, i, k, j - 1);
      } else {
        MovesPrefix(ps, i, j - 1, j - 1);
      }
    }
  }

  /** A motion that keeps the history admissible does not reset the machine. */
  lemma MotionPersists(cfg: Config, s: Tracker, h: seq<Motion>, p: Packet)
    requires Summarises(cfg, s, h) && IsMotion(s.lb, s.rb, p)
    requires Admissible(cfg, s.phase, h + [MotionOf(p)])
    ensures !Resets(Unbounded, cfg, s, p)
  {
    if OnStroke(s.phase) {
      var h' := h + [MotionOf(p)];
      StrokeMotion(cfg, s.phase, s.lb, s.rb, h, p);
      assert h'[..|h'|] == h';
    } else {
      IdleMotion(cfg, s.phase, s.lb, s.rb, h, p);
    }
  }

  lemma AdmissibleBefore(cfg: Config, phase: Phase, ps: seq<Packet>, i: nat, k: nat)
    requires i < k <= |ps| && AllMove(ps, i, k) && Admissible(cfg, phase, Moves(ps, i, k))
    ensures Admissible(cfg, phase, Moves(ps, i, k - 1))
  {
    MovesPrefix(ps, i, k - 1, k);
    AdmissiblePrefix(cfg, phase, Moves(ps, i, k), k - 1 - i);
  }

  lemma MotionLasts(cfg: Config, r: Trace, n: nat)
    requires r.Valid(Unbounded, cfg) && n < |r.ps| && r.Settled(n) && MovesAt(r.ps, n)
    requires Admissible(cfg, r.ss[n].phase, Moves(r.ps, r.since[n], n + 1))
    ensures r.ss[n + 1].phase == r.ss[n].phase && r.since[n + 1] == r.since[n]
  {
    AccumulatorsRefineHistory(cfg, r, n);
    HeldIsTracked(Unbounded, cfg, r, n);
    MotionPersists(cfg, r.ss[n], Recent(r, n), r.ps[n]);
    assert r.StepAt(Unbounded, cfg, n);
    OnlyResetsChangePhase(cfg, r.ss[n], r.ps[n], r.ss[n + 1], r.since[n + 1] == n + 1);
  }

  /** A phase lasts as long as its motions stay admissible. */
  lemma {:induction false} PhaseLasts(cfg: Config, r: Trace, i: nat, k: nat)
    requires r.Valid(Unbounded, cfg) && i <= k <= |r.ps| && r.since[i] == i && r.Settled(i)
    requires AllMove(r.ps, i, k) && Admissible(cfg, r.ss[i].phase, Moves(r.ps, i, k))
    ensures r.ss[k].phase == r.ss[i].phase && r.since[k] == i
    decreases k
  {
    if i < k {
      AdmissibleBefore(cfg, r.ss[i].phase, r.ps, i, k);
      PhaseLasts(cfg, r, i, k - 1);
      assert MovesAt(r.ps, k - 1);
      MotionLasts(cfg, r, k - 1);
    }
  }

  /** A stroke about to be accepted is still being drawn. */
  lemma StrokeUnderWay(cfg: Config, r: Trace, side: Side, i: nat, j: nat)
    requires r.Valid(Unbounded, cfg) && i < j <= |r.ps| && r.since[i] == i && r.Settled(i)
    requires r.ss[i].phase == DrawPhase(side) && AllMove(r.ps, i, j)
    requires Accepted(side, cfg, Moves(r.ps, i, j))
    ensures r.ss[j - 1].phase == DrawPhase(side) && r.since[j - 1] == i
  {
    MovesPrefix(r.ps, i, j - 1, j);
    StrokePrefixAdmissible(cfg, side, Moves(r.ps, i, j));
    PhaseLasts(cfg, r, i, j - 1);
  }

  /** A freshly started stroke that is drawn acceptably is declared done at its last packet. */
  lemma StrokeCompletes(cfg: Config, r: Trace, side: Side, i: nat, j: nat)
    requires r.Valid(Unbounded, cfg) && i < j <= |r.ps| && r.since[i] == i && r.Settled(i)
    requires r.ss[i].phase == DrawPhase(side) && AllMove(r.ps, i, j)
    requires Accepted(side, cfg, Moves(r.ps, i, j))
    ensures r.ss[j].phase == DonePhase(side) && r.since[j] == j
  {
    StrokeUnderWay(cfg, r, side, i, j);
    assert MovesAt(r.ps, j - 1);
    StrokeAcceptance(cfg, r, side, j - 1);
    ChangeIsReset(cfg, r, j - 1);
  }

  lemma ChangeIsReset(cfg: Config, r: Trace, n: nat)
    requires r.Valid(Unbounded, cfg) && n < |r.ps|
    ensures r.ss[n + 1].phase != r.ss[n].phase ==> r.since[n + 1] == n + 1
  {
    assert r.StepAt(Unbounded, cfg, n);
    OnlyResetsChangePhase(cfg, r.ss[n], r.ps[n], r.ss[n + 1], r.since[n + 1] == n + 1);
  }

  lemma StrokePrefixAdmissible(cfg: Config, side: Side, h: seq<Motion>)
    requires Accepted(side, cfg, h)
    ensures Admissible(cfg, DrawPhase(side), h[..|h| - 1])
  {
    AdmissiblePrefix(cfg, DonePhase(side), h, |h| - 1);
  }

  /** What the button changes of a gesture do, each in its phase. */
  lemma Departures(cfg: Config, s: Tracker, p: Packet, t: Tracker, reset: bool)
    requires Follows(Unbounded, cfg, s, p, t, reset)
    ensures s.phase == Initial && !s.lb && p.lb ==> t.phase == DrawLeft
    ensures s.phase == LeftDone && s.lb && !p.lb ==> t.phase == Vertex
    ensures s.phase == Vertex && s.lb == p.lb && !s.rb && p.rb ==> t.phase == DrawRight
    ensures s.phase == RightDone && s.lb == p.lb && s.rb && !p.rb ==> t.phase == Exit
  {
  }

  /** A button change between packets n and n + 1, the only thing that packet reports. */
  predicate LeftChanges(ps: seq<Packet>, n: nat, down: bool)
    requires n < |ps|
  {
    Held(ps, n).0 == !down && ps[n].lb == down
  }

  predicate RightChanges(ps: seq<Packet>, n: nat, down: bool)
    requires n < |ps|
  {
    Held(ps, n).0 == ps[n].lb && Held(ps, n).1 == !down && ps[n].rb == down
  }

  lemma ButtonDeparts(cfg: Config, r: Trace, n: nat)
    requires r.Valid(Unbounded, cfg) && n < |r.ps|
    ensures LeftChanges(r.ps, n, true) && r.ss[n].phase == Initial ==> r.ss[n + 1].phase == DrawLeft
    ensures LeftChanges(r.ps, n, false) && r.ss[n].phase == LeftDone ==> r.ss[n + 1].phase == Vertex
    ensures RightChanges(r.ps, n, true) && r.ss[n].phase == Vertex ==> r.ss[n + 1].phase == DrawRight
    ensures RightChanges(r.ps, n, false) && r.ss[n].phase == RightDone ==> r.ss[n + 1].phase == Exit
    ensures r.ss[n + 1].phase != r.ss[n].phase ==> r.since[n + 1] == n + 1
  {
    HeldIsTracked(Unbounded, cfg, r, n);
    assert r.StepAt(Unbounded, cfg, n);
    Departures(cfg, r.ss[n], r.ps[n], r.ss[n + 1], r.since[n + 1] == n + 1);
    ChangeIsReset(cfg, r, n);
  }

  /** The packets of half a gesture: an accepted stroke from i, held to j, then the release. */
  ghost predicate HalfDrawn(cfg: Config, side: Side, ps: seq<Packet>, i: nat, k: nat, j: nat) {
    && i < k < j <= |ps|
    && AllMove(ps, i, k) && Accepted(side, cfg, Moves(ps, i, k))
    && AllMove(ps, k, j - 1) && Tidy(side, cfg.tol, Moves(ps, k, j - 1))
    && (if side == Left then LeftChanges(ps, j - 1, false) else RightChanges(ps, j - 1, false))
  }

  /** The packets of a gesture drawn in one go, without reference to the machine. */
  ghost predicate DrawnInOneGo(cfg: Config, ps: seq<Packet>, g: Legs) {
    && 0 < g.left && g.vertex < g.press == g.right
    && HalfDrawn(cfg, Left, ps, g.left, g.corner, g.vertex)
    && HalfDrawn(cfg, Right, ps, g.press, g.hold, g.exit)
    && LeftChanges(ps, g.left - 1, true)
    && AllMove(ps, g.vertex, g.press - 1) && Still(cfg.tol, Moves(ps, g.vertex, g.press - 1))
    && RightChanges(ps, g.press - 1, true)
  }

  /** A stroke just done, held to j - 1 and then released. */
  lemma HoldCompletes(cfg: Config, r: Trace, side: Side, k: nat, j: nat)
    requires r.Valid(Unbounded, cfg) && 0 < k < j <= |r.ps|
    requires r.ss[k].phase == DonePhase(side) && r.since[k] == k
    requires AllMove(r.ps, k, j - 1) && Tidy(side, cfg.tol, Moves(r.ps, k, j - 1))
    requires if side == Left then LeftChanges(r.ps, j - 1, false) else RightChanges(r.ps, j - 1, false)
    ensures r.ss[j].phase == if side == Left then Vertex else Exit
    ensures r.since[j] == j
  {
    PhaseLasts(cfg, r, k, j - 1);
    ButtonDeparts(cfg, r, j - 1);
  }

  lemma HalfCompletes(cfg: Config, r: Trace, side: Side, i: nat, k: nat, j: nat)
    requires r.Valid(Unbounded, cfg) && HalfDrawn(cfg, side, r.ps, i, k, j)
    requires r.ss[i].phase == DrawPhase(side) && r.since[i] == i && r.Settled(i)
    ensures r.ss[j].phase == if side == Left then Vertex else Exit
    ensures r.since[j] == j
  {
    StrokeCompletes(cfg, r, side, i, k);
    HoldCompletes(cfg, r, side, k, j);
  }

  lemma MiddleCompletes(cfg: Config, r: Trace, i: nat, j: nat)
    requires r.Valid(Unbounded, cfg) && i < j <= |r.ps|
    requires r.ss[i].phase == Vertex && r.since[i] == i && r.Settled(i)
    requires AllMove(r.ps, i, j - 1) && Still(cfg.tol, Moves(r.ps, i, j - 1)) && RightChanges(r.ps, j - 1, true)
    ensures r.ss[j].phase == DrawRight && r.since[j] == j
  {
    PhaseLasts(cfg, r, i, j - 1);
    ButtonDeparts(cfg, r, j - 1);
  }

  lemma LeftPressed(cfg: Config, r: Trace, i: nat)
    requires r.Valid(Unbounded, cfg) && 0 < i <= |r.ps|
    requires r.ss[i - 1].phase == Initial && LeftChanges(r.ps, i - 1, true)
    ensures r.ss[i].phase == DrawLeft && r.since[i] == i
  {
    ButtonDeparts(cfg, r, i - 1);
  }

  lemma VertexReached(cfg: Config, r: Trace, g: Legs)
    requires r.Valid(Unbounded, cfg) && DrawnInOneGo(cfg, r.ps, g)
    requires r.ss[g.left - 1].phase == Initial
    ensures r.ss[g.vertex].phase == Vertex && r.since[g.vertex] == g.vertex
  {
    LeftPressed(cfg, r, g.left);
    HalfCompletes(cfg, r, Left, g.left, g.corner, g.vertex);
  }

  lemma PressReached(cfg: Config, r: Trace, g: Legs)
    requires r.Valid(Unbounded, cfg) && DrawnInOneGo(cfg, r.ps, g)
    requires r.ss[g.left - 1].phase == Initial
    ensures r.ss[g.press].phase == DrawRight && r.since[g.press] == g.press
  {
    VertexReached(cfg, r, g);
    MiddleCompletes(cfg, r, g.vertex, g.press);
  }

  /** Whole-gesture completeness: from the initial phase, a gesture drawn in one go ends in the exit phase. */
  lemma GestureCompletes(cfg: Config, r: Trace, g: Legs)
    requires r.Valid(Unbounded, cfg) && DrawnInOneGo(cfg, r.ps, g)
    requires r.ss[g.left - 1].phase == Initial
    ensures r.ss[g.exit].phase == Exit
  {
    PressReached(cfg, r, g);
    HalfCompletes(cfg, r, Right, g.press, g.hold, g.exit);
  }

  // ----- Every configuration can be satisfied ----------

  function Report(lb: bool, rb: bool, m: Motion): (p: Packet)
    requires -256 <= m.dx <= 255 && -256 <= m.dy <= 255
    ensures Decoded(p)
  {
    Packet([], lb, rb, false, false, false, m.dx, m.dy)
  }

  /** The packet with the bytes a device sends for it. */
  function AsSent(p: Packet): (q: Packet)
    requires Decoded(p)
    ensures OnTheWire([q]) && q == p.(raw := q.raw)
  {
    RawDoesNotMatter(p, WireBytes(p));
    p.(raw := WireBytes(p))
  }

  function Sent(ps: seq<Packet>): (qs: seq<Packet>)
    requires forall p | p in ps :: Decoded(p)
    ensures |qs| == |ps| && OnTheWire(qs)
    ensures forall i | 0 <= i < |ps| :: qs[i] == ps[i].(raw := qs[i].raw)
  {
    var qs := seq(|ps|, i requires 0 <= i < |ps| => AsSent(ps[i]));
    assert forall i | 0 <= i < |ps| :: OnTheWire([qs[i]]) && [qs[i]][0] == qs[i];
    qs
  }

  /** Up or down, as the side has it. */
  function Upwards(side: Side, v: Byte): (dy: int)
    ensures -256 <= dy <= 255
  {
    if side == Left then v else -(v as int)
  }

  /** The two motions of each half. */
  function Straight(side: Side): (m: Motion) {
    Motion(0, Upwards(side, 1))
  }

  function Diagonal(cfg: Config, side: Side): (m: Motion) {
    Motion(cfg.xLen, Upwards(side, cfg.xLen))
  }

  predicate Reports(p: Packet, lb: bool, rb: bool, m: Motion) {
    p.lb == lb && p.rb == rb && MotionOf(p) == m
  }

  const REST := Motion(0, 0)

  /** Press left, one up, up along the diagonal, release; press right, one down, down along the diagonal, release. */
  predicate IsSmallGesture(cfg: Config, ps: seq<Packet>) {
    && |ps| == 8
    && Reports(ps[0], true, false, REST)
    && Reports(ps[1], true, false, Straight(Left)) && Reports(ps[2], true, false, Diagonal(cfg, Left))
    && Reports(ps[3], false, false, REST)
    && Reports(ps[4], false, true, REST)
    && Reports(ps[5], false, true, Straight(Right)) && Reports(ps[6], false, true, Diagonal(cfg, Right))
    && Reports(ps[7], false, false, REST)
  }

  function SmallReports(cfg: Config): (ps: seq<Packet>)
    ensures IsSmallGesture(cfg, ps) && forall p | p in ps :: Decoded(p)
  {
    [ Report(true, false, REST),
      Report(true, false, Straight(Left)), Report(true, false, Diagonal(cfg, Left)),
      Report(false, false, REST),
      Report(false, true, REST),
      Report(false, true, Straight(Right)), Report(false, true, Diagonal(cfg, Right)),
      Report(false, false, REST) ]
  }

  function SmallGesture(cfg: Config): (ps: seq<Packet>)
    ensures IsSmallGesture(cfg, ps) && OnTheWire(ps)
  {
    Sent(SmallReports(cfg))
  }

  lemma HeldNext(ps: seq<Packet>, n: nat)
    requires n < |ps|
    ensures var (lb, rb), p := Held(ps, n), ps[n];
            Held(ps, n + 1) == if p.lb != lb then (p.lb, rb) else (lb, p.rb)
  {
  }

  lemma SmallHeld(cfg: Config, ps: seq<Packet>)
    requires IsSmallGesture(cfg, ps)
    ensures Held(ps, 0) == (false, false) && Held(ps, 1) == Held(ps, 2) == Held(ps, 3) == (true, false)
    ensures Held(ps, 4) == (false, false) && Held(ps, 5) == Held(ps, 6) == Held(ps, 7) == (false, true)
  {
    HeldNext(ps, 0);
    HeldNext(ps, 1);
    HeldNext(ps, 2);
    HeldNext(ps, 3);
    HeldNext(ps, 4);
    HeldNext(ps, 5);
    HeldNext(ps, 6);
  }

  lemma TotalOfOne(q: Measure, m: Motion)
    ensures Total(q, [m]) == Value(q, m)
  {
    assert [m] == [] + [m];
    TotalSnoc(q, [], m);
  }

  lemma TotalOfTwo(q: Measure, l: Motion, m: Motion)
    ensures Total(q, [l, m]) == Value(q, l) + Value(q, m)
  {
    TotalOfOne(q, l);
    assert [l, m] == [l] + [m];
    TotalSnoc(q, [l], m);
  }

  /** The sums a stroke is judged by. */
  lemma SumsOfOne(side: Side, m: Motion)
    ensures Total(NetX, [m]) == m.dx && Total(NetY, [m]) == m.dy
    ensures Total(Back, [m]) == Value(Back, m) && Total(Against(side), [m]) == Value(Against(side), m)
  {
    TotalOfOne(NetX, m);
    TotalOfOne(NetY, m);
    TotalOfOne(Back, m);
    TotalOfOne(Against(side), m);
  }

  lemma SumsOfTwo(side: Side, l: Motion, m: Motion)
    ensures Total(NetX, [l, m]) == l.dx + m.dx && Total(NetY, [l, m]) == l.dy + m.dy
    ensures Total(Back, [l, m]) == Value(Back, l) + Value(Back, m)
    ensures Total(Against(side), [l, m]) == Value(Against(side), l) + Value(Against(side), m)
  {
    TotalOfTwo(NetX, l, m);
    TotalOfTwo(NetY, l, m);
    TotalOfTwo(Back, l, m);
    TotalOfTwo(Against(side), l, m);
  }

  /** With no length to cover the straight motion is the whole stroke, and the diagonal one is the hold. */
  lemma NoLengthStroke(cfg: Config, side: Side)
    requires cfg.xLen == 0
    ensures Accepted(side, cfg, [Straight(side)]) && Tidy(side, cfg.tol, [Diagonal(cfg, side)])
  {
    OneMotionTidy(cfg, side, Straight(side));
    OneMotionTidy(cfg, side, Diagonal(cfg, side));
    OneMotionAccepted(cfg, side, Straight(side));
  }

  lemma OneMotionAccepted(cfg: Config, side: Side, m: Motion)
    requires Tidy(side, cfg.tol, [m]) && m.dx >= cfg.xLen && Over(m.dx, Along(side, m.dy))
    ensures Accepted(side, cfg, [m])
  {
    SumsOfOne(side, m);
    OneMotionWindow(m);
    assert [m][..|[m]| - 1] == [];
    assert Short(cfg.xLen, []);
  }

  lemma OneMotionWindow(m: Motion)
    ensures OpenWindow([m]) == [m]
  {
  }

  lemma OneMotionTidy(cfg: Config, side: Side, m: Motion)
    requires Value(Back, m) == 0 && Value(Against(side), m) == 0
    ensures Tidy(side, cfg.tol, [m])
  {
    SumsOfOne(side, m);
  }

  lemma TwoMotionStroke(cfg: Config, side: Side)
    requires cfg.xLen > 0
    ensures Accepted(side, cfg, [Straight(side), Diagonal(cfg, side)])
  {
    var l, m := Straight(side), Diagonal(cfg, side);
    var h := [l, m];
    SumsOfOne(side, l);
    SumsOfTwo(side, l, m);
    assert OpenWindow(h) == h && h[..1] == [l] && h[..1][..1] == [l];
  }

  /** Where the corner of a half that begins at i is. */
  function Corner(cfg: Config, i: nat): (corner: nat) {
    if cfg.xLen == 0 then i + 1 else i + 2
  }

  lemma TwoMoves(ps: seq<Packet>, i: nat)
    requires i + 2 <= |ps| && MovesAt(ps, i) && MovesAt(ps, i + 1)
    ensures Moves(ps, i, i + 1) == [MotionOf(ps[i])]
    ensures Moves(ps, i + 1, i + 2) == [MotionOf(ps[i + 1])]
    ensures Moves(ps, i, i + 2) == [MotionOf(ps[i]), MotionOf(ps[i + 1])]
  {
    assert Moves(ps, i, i) == [] && Moves(ps, i + 1, i + 1) == [];
  }

  /** The motions of a half, cut at its corner. */
  lemma SmallStroke(cfg: Config, side: Side, ps: seq<Packet>, i: nat)
    requires i + 2 <= |ps| && MovesAt(ps, i) && MovesAt(ps, i + 1)
    requires MotionOf(ps[i]) == Straight(side) && MotionOf(ps[i + 1]) == Diagonal(cfg, side)
    ensures var k := Corner(cfg, i);
            Accepted(side, cfg, Moves(ps, i, k)) && Tidy(side, cfg.tol, Moves(ps, k, i + 2))
  {
    TwoMoves(ps, i);
    if cfg.xLen == 0 {
      NoLengthStroke(cfg, side);
    } else {
      TwoMotionStroke(cfg, side);
      assert Moves(ps, i + 2, i + 2) == [];
      EmptyIsAdmissible(cfg, DonePhase(side));
    }
  }

  lemma SmallHalf(cfg: Config, side: Side, ps: seq<Packet>, i: nat)
    requires i + 3 <= |ps| && MovesAt(ps, i) && MovesAt(ps, i + 1)
    requires MotionOf(ps[i]) == Straight(side) && MotionOf(ps[i + 1]) == Diagonal(cfg, side)
    requires if side == Left then LeftChanges(ps, i + 2, false) else RightChanges(ps, i + 2, false)
    ensures HalfDrawn(cfg, side, ps, i, Corner(cfg, i), i + 3)
  {
    SmallStroke(cfg, side, ps, i);
    var k := Corner(cfg, i);
    assert AllMove(ps, i, k) && AllMove(ps, k, i + 2);
  }

  /** What each packet reports. */
  lemma SmallReported(cfg: Config, ps: seq<Packet>)
    requires IsSmallGesture(cfg, ps)
    ensures LeftChanges(ps, 0, true) && LeftChanges(ps, 3, false)
    ensures RightChanges(ps, 4, true) && RightChanges(ps, 7, false)
    ensures MovesAt(ps, 1) && MovesAt(ps, 2) && MovesAt(ps, 5) && MovesAt(ps, 6)
  {
    SmallHeld(cfg, ps);
  }

  function SmallLegs(cfg: Config): (legs: Legs) {
    Legs(1, Corner(cfg, 1), 4, 5, 5, Corner(cfg, 5), 8)
  }

  lemma SmallIsDrawn(cfg: Config, ps: seq<Packet>)
    requires IsSmallGesture(cfg, ps)
    ensures DrawnInOneGo(cfg, ps, SmallLegs(cfg))
  {
    SmallReported(cfg, ps);
    SmallHalf(cfg, Left, ps, 1);
    SmallHalf(cfg, Right, ps, 5);
    assert Moves(ps, 4, 4) == [];
  }

  /** No tolerance and no length is unsatisfiable, with packets a device can send. */
  lemma GestureExists(cfg: Config)
    ensures OnTheWire(SmallGesture(cfg)) && DrawnInOneGo(cfg, SmallGesture(cfg), SmallLegs(cfg))
  {
    SmallIsDrawn(cfg, SmallGesture(cfg));
  }
}
