/** What the recogniser's accumulators mean: sums over the motion packets seen since the last reset. */
module GestureHistory {
  import opened Gesture

  datatype Motion = Motion(dx: int, dy: int)

  /** The quantities added up over a stroke. */
  datatype Measure = NetX | NetY | Back | Drop | Rise | SpanX | SpanY

  function Value(q: Measure, m: Motion): (value: int) {
    match q
    case NetX => m.dx
    case NetY => m.dy
    case Back => if m.dx < 0 then -m.dx else 0
    case Drop => if m.dy < 0 then -m.dy else 0
    case Rise => if m.dy > 0 then m.dy else 0
    case SpanX => if m.dx < 0 then -m.dx else m.dx
    case SpanY => if m.dy < 0 then -m.dy else m.dy
  }

  function Total(q: Measure, h: seq<Motion>): (total: int) {
    if h == [] then 0 else Total(q, h[..|h| - 1]) + Value(q, h[|h| - 1])
  }

  lemma TotalSnoc(q: Measure, h: seq<Motion>, m: Motion)
    ensures Total(q, h + [m]) == Total(q, h) + Value(q, m)
  {
    assert (h + [m])[..|h|] == h;
  }

  lemma {:induction false} TotalConcat(q: Measure, a: seq<Motion>, b: seq<Motion>)
    ensures Total(q, a + b) == Total(q, a) + Total(q, b)
  {
    if b == [] {
      assert a + b == a;
    } else {
      var b' := b[..|b| - 1];
      assert (a + b)[..|a + b| - 1] == a + b';
      TotalConcat(q, a, b');
    }
  }

  /** The one-sided and absolute totals are never negative, and the net ones lie between them. */
  lemma {:induction false} TotalSigns(h: seq<Motion>)
    ensures Total(Back, h) >= 0 && Total(Drop, h) >= 0 && Total(Rise, h) >= 0
    ensures Total(SpanX, h) >= 0 && Total(SpanY, h) >= 0
    ensures Total(NetX, h) >= -Total(Back, h)
    ensures -Total(Drop, h) <= Total(NetY, h) <= Total(Rise, h)
    ensures -Total(SpanX, h) <= Total(NetX, h) <= Total(SpanX, h)
    ensures -Total(SpanY, h) <= Total(NetY, h) <= Total(SpanY, h)
  {
    if h != [] {
      TotalSigns(h[..|h| - 1]);
    }
  }

  datatype Side = Left | Right

  /** Vertical motion against the stroke: down on the left one, up on the right one. */
  function Against(side: Side): (against: Measure) {
    match side
    case Left => Drop
    case Right => Rise
  }

  /** Strictly steeper than the diagonal: up faster than right, or back faster than up; straight up counts. */
  predicate Over(dx: int, up: int) {
    (dx > 0 && up > dx) || (dx < 0 && up < dx) || (dx == 0 && up > 0)
  }

  /** The test a full window has to survive; one that did not move at all survives it. */
  predicate Survives(dx: int, up: int) {
    Over(dx, up) || (dx == 0 && up == 0)
  }

  /** Vertical motion along the stroke: up on the left one, down on the right one. */
  function Along(side: Side, dy: int): (up: int) {
    match side
    case Left => dy
    case Right => -dy
  }

  predicate Passes(side: Side, w: seq<Motion>) {
    Survives(Total(NetX, w), Along(side, Total(NetY, w)))
  }

  /** The test on the part of the line left open when the line is long enough. */
  predicate Steep(side: Side, w: seq<Motion>) {
    Over(Total(NetX, w), Along(side, Total(NetY, w)))
  }

  /** The machine's quotients decide just these tests. */
  lemma QuotientsDecide(side: Side, dx: int, dy: int)
    ensures var q, up := Divide(dy, dx), Along(side, dy);
            && ((if side == Left then q.AtMostOne() else q.AtLeastMinusOne()) <==> !Survives(dx, up))
            && ((if side == Left then q.AboveOne() else q.BelowMinusOne()) <==> Over(dx, up))
  {
    SlopeTests(dy, dx);
  }

  function OpenWindow(h: seq<Motion>): (w: seq<Motion>)
    ensures |w| == |h| % 20
  {
    h[|h| - |h| % 20..]
  }

  predicate HasWindow(h: seq<Motion>, k: nat) {
    20 * (k + 1) <= |h|
  }

  function ClosedWindow(h: seq<Motion>, k: nat): (w: seq<Motion>)
    requires HasWindow(h, k)
  {
    h[20 * k..20 * (k + 1)]
  }

  ghost predicate WindowsPass(side: Side, h: seq<Motion>) {
    forall k: nat | HasWindow(h, k) :: Passes(side, ClosedWindow(h, k))
  }

  /** A stroke within tolerance: bounded motion backwards and against it, and every full window steep enough. */
  ghost predicate Tidy(side: Side, tol: int, h: seq<Motion>) {
    && Total(Back, h) <= tol
    && Total(Against(side), h) <= tol
    && WindowsPass(side, h)
  }

  /** Every non-empty prefix is still short of the required width. */
  ghost predicate Short(xLen: int, h: seq<Motion>) {
    forall k | 0 < k <= |h| :: Total(NetX, h[..k]) < xLen
  }

  predicate Still(tol: int, h: seq<Motion>) {
    Total(SpanX, h) <= tol && Total(SpanY, h) <= tol
  }

  /** A finished stroke, on the motions alone: tidy, just long enough, and steep where the last window was left. */
  ghost predicate Accepted(side: Side, cfg: Config, h: seq<Motion>) {
    && h != []
    && Tidy(side, cfg.tol, h)
    && Short(cfg.xLen, h[..|h| - 1])
    && Total(NetX, h) >= cfg.xLen
    && (OpenWindow(h) == [] || Steep(side, OpenWindow(h)))
  }

  predicate OnStroke(phase: Phase) {
    phase == DrawLeft || phase == LeftDone || phase == DrawRight || phase == RightDone
  }

  function SideOf(phase: Phase): (side: Side) {
    if phase == DrawLeft || phase == LeftDone then Left else Right
  }

  function DrawPhase(side: Side): (phase: Phase) {
    match side
    case Left => DrawLeft
    case Right => DrawRight
  }

  function DonePhase(side: Side): (phase: Phase) {
    match side
    case Left => LeftDone
    case Right => RightDone
  }

  /** On a stroke the tolerance sums are one-sided and the slope is that of the open window. */
  function StrokeSummary(phase: Phase, lb: bool, rb: bool, h: seq<Motion>): (t: Tracker) {
    var open := OpenWindow(h);
    Tracker(phase, lb, rb, Total(NetX, h), Total(NetY, h), Total(Back, h), Total(Against(SideOf(phase)), h),
            Total(NetX, open), Total(NetY, open), |open|)
  }

  /** Elsewhere no window is counted, and only the vertex has tolerance sums. */
  function IdleSummary(phase: Phase, lb: bool, rb: bool, h: seq<Motion>): (t: Tracker) {
    Tracker(phase, lb, rb, Total(NetX, h), Total(NetY, h),
            if phase == Vertex then Total(SpanX, h) else 0,
            if phase == Vertex then Total(SpanY, h) else 0,
            Total(NetX, h), Total(NetY, h), 0)
  }

  /** The state the machine must be in, given its phase, the buttons and the motions since the last reset. */
  function Summary(phase: Phase, lb: bool, rb: bool, h: seq<Motion>): (t: Tracker) {
    if OnStroke(phase) then StrokeSummary(phase, lb, rb, h) else IdleSummary(phase, lb, rb, h)
  }

  /** What every phase guarantees about the motions since the last reset. */
  ghost predicate Admissible(cfg: Config, phase: Phase, h: seq<Motion>) {
    match phase
    case DrawLeft | DrawRight => Tidy(SideOf(phase), cfg.tol, h) && Short(cfg.xLen, h)
    case LeftDone | RightDone => Tidy(SideOf(phase), cfg.tol, h)
    case Vertex => Still(cfg.tol, h)
    case _ => true
  }

  /** One more motion extends the open window; the twentieth closes it. */
  lemma WindowSnoc(h: seq<Motion>, m: Motion)
    ensures |h| % 20 < 19 ==> OpenWindow(h + [m]) == OpenWindow(h) + [m]
    ensures |h| % 20 == 19 ==>
              && OpenWindow(h + [m]) == []
              && HasWindow(h + [m], |h| / 20)
              && ClosedWindow(h + [m], |h| / 20) == OpenWindow(h) + [m]
  {
    var n := |h|;
    if n % 20 < 19 {
      assert (n + 1) % 20 == n % 20 + 1;
    } else {
      assert (n + 1) % 20 == 0;
    }
  }

  /** The windows of the longer stroke are the old ones and, at the twentieth packet, the one just closed. */
  lemma WindowIndex(h: seq<Motion>, m: Motion, k: nat)
    requires HasWindow(h + [m], k)
    ensures HasWindow(h, k) ==> ClosedWindow(h + [m], k) == ClosedWindow(h, k)
    ensures !HasWindow(h, k) ==> |h| % 20 == 19 && k == |h| / 20
  {
  }

  lemma WindowsPassSnoc(side: Side, h: seq<Motion>, m: Motion)
    requires WindowsPass(side, h)
    ensures WindowsPass(side, h + [m]) <==>
            (|h| % 20 == 19 ==> Passes(side, OpenWindow(h) + [m]))
  {
    WindowSnoc(h, m);
    forall k: nat | HasWindow(h + [m], k) && HasWindow(h, k)
      ensures Passes(side, ClosedWindow(h + [m], k))
    {
      WindowIndex(h, m, k);
    }
    forall k: nat | HasWindow(h + [m], k) && !HasWindow(h, k)
      ensures |h| % 20 == 19 && k == |h| / 20
    {
      WindowIndex(h, m, k);
    }
  }

  /** The incremental tests decide whether the longer stroke is still tidy. */
  lemma TidySnoc(side: Side, tol: int, h: seq<Motion>, m: Motion)
    requires Tidy(side, tol, h)
    ensures Tidy(side, tol, h + [m]) <==>
            && Total(Back, h) + Value(Back, m) <= tol
            && Total(Against(side), h) + Value(Against(side), m) <= tol
            && (|h| % 20 == 19 ==> Passes(side, OpenWindow(h) + [m]))
  {
    TotalSnoc(Back, h, m);
    TotalSnoc(Against(side), h, m);
    WindowsPassSnoc(side, h, m);
  }

  lemma ShortSnoc(xLen: int, h: seq<Motion>, m: Motion)
    requires Short(xLen, h)
    ensures Short(xLen, h + [m]) <==> Total(NetX, h + [m]) < xLen
  {
    var h' := h + [m];
    assert h'[..|h'|] == h';
    forall k | 0 < k <= |h|
      ensures h'[..k] == h[..k]
    {
    }
  }
}
