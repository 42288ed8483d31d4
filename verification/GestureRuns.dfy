/** The recogniser over whole runs: its state is a function of the motions since the last reset. */
module GestureRuns {
  import opened MousePacket
  import opened Gesture
  import opened GestureHistory

  function MotionOf(p: Packet): (m: Motion) {
    Motion(p.dx, p.dy)
  }

  /** The accumulators after one more motion on a stroke, before the tests. */
  function Summed(s: Tracker, p: Packet): (t: Tracker) {
    Tolerated(Unbounded, Counted(Displaced(Unbounded, s, p)),
              Loss(p.dx), if SideOf(s.phase) == Left then Loss(p.dy) else Gain(p.dy))
  }

  lemma StrokeSums(phase: Phase, lb: bool, rb: bool, h: seq<Motion>, p: Packet)
    requires OnStroke(phase)
    ensures var m, w := MotionOf(p), OpenWindow(h);
            Summed(StrokeSummary(phase, lb, rb, h), p) ==
            Tracker(phase, lb, rb, Total(NetX, h + [m]), Total(NetY, h + [m]),
                    Total(Back, h + [m]), Total(Against(SideOf(phase)), h + [m]),
                    Total(NetX, w + [m]), Total(NetY, w + [m]), |w| + 1)
  {
    var m, w, side := MotionOf(p), OpenWindow(h), SideOf(phase);
    var t := Summed(StrokeSummary(phase, lb, rb, h), p);
    assert t.x == Total(NetX, h + [m]) by { TotalSnoc(NetX, h, m); }
    assert t.y == Total(NetY, h + [m]) by { TotalSnoc(NetY, h, m); }
    assert t.xTol == Total(Back, h + [m]) by { TotalSnoc(Back, h, m); }
    assert t.yTol == Total(Against(side), h + [m]) by { TotalSnoc(Against(side), h, m); }
    assert t.lineX == Total(NetX, w + [m]) by { TotalSnoc(NetX, w, m); }
    assert t.lineY == Total(NetY, w + [m]) by { TotalSnoc(NetY, w, m); }
  }

  /** The slope test that closes a window. */
  predicate Flat(phase: Phase, q: Quotient) {
    if SideOf(phase) == Left then q.AtMostOne() else q.AtLeastMinusOne()
  }

  lemma StrokeEventOf(cfg: Config, s: Tracker, p: Packet)
    requires OnStroke(s.phase)
    ensures var u := Summed(s, p); MotionEvent(Unbounded, cfg, s, p) == StrokeEvent(cfg, u, Flat(s.phase, Slope(u)))
  {
  }

  /** A motion during a stroke: the incremental tests agree with the tests on the whole history. */
  lemma StrokeMotion(cfg: Config, phase: Phase, lb: bool, rb: bool, h: seq<Motion>, p: Packet)
    requires OnStroke(phase) && Tidy(SideOf(phase), cfg.tol, h)
    ensures var (t, e) := MotionEvent(Unbounded, cfg, StrokeSummary(phase, lb, rb, h), p);
            var h' := h + [MotionOf(p)];
            && t.phase == phase && t.lb == lb && t.rb == rb
            && (e == TolFail <==> !Tidy(SideOf(phase), cfg.tol, h'))
            && (e != TolFail ==> t == StrokeSummary(phase, lb, rb, h'))
            && (e != TolFail ==> e == if Total(NetX, h') >= cfg.xLen then LineComplete else ContinueDraw)
  {
    var m, side, w := MotionOf(p), SideOf(phase), OpenWindow(h);
    var s := StrokeSummary(phase, lb, rb, h);
    var u := Summed(s, p);
    var flat := Flat(phase, Slope(u));
    assert MotionEvent(Unbounded, cfg, s, p) == StrokeEvent(cfg, u, flat) by { StrokeEventOf(cfg, s, p); }
    var h' := h + [m];
    assert u == Tracker(phase, lb, rb, Total(NetX, h'), Total(NetY, h'), Total(Back, h'), Total(Against(side), h'),
                        Total(NetX, w + [m]), Total(NetY, w + [m]), |w| + 1) by { StrokeSums(phase, lb, rb, h, p); }
    assert flat <==> !Passes(side, w + [m]) by { QuotientsDecide(side, Total(NetX, w + [m]), Total(NetY, w + [m])); }
    assert Tidy(side, cfg.tol, h') <==>
           && u.xTol <= cfg.tol && u.yTol <= cfg.tol
           && (u.count == PACKET_SLOPE_COUNT ==> !flat) by {
      TidySnoc(side, cfg.tol, h, m);
      TotalSnoc(Back, h, m);
      TotalSnoc(Against(side), h, m);
    }
    assert OpenWindow(h') == if u.count == PACKET_SLOPE_COUNT then [] else w + [m] by { WindowSnoc(h, m); }
  }

  /** A motion outside a stroke only adds up; the line is complete there too when it is long enough. */
  lemma IdleMotion(cfg: Config, phase: Phase, lb: bool, rb: bool, h: seq<Motion>, p: Packet)
    requires !OnStroke(phase)
    ensures var (t, e) := MotionEvent(Unbounded, cfg, IdleSummary(phase, lb, rb, h), p);
            var h' := h + [MotionOf(p)];
            && t == IdleSummary(phase, lb, rb, h')
            && (e == TolFail <==> phase == Vertex && !Still(cfg.tol, h'))
            && (e != TolFail ==> e == if Total(NetX, h') >= cfg.xLen then LineComplete else ContinueDraw)
  {
    var m := MotionOf(p);
    TotalSnoc(NetX, h, m);
    TotalSnoc(NetY, h, m);
    TotalSnoc(SpanX, h, m);
    TotalSnoc(SpanY, h, m);
  }

  /** When a tidy stroke is accepted: long enough just now, and steep where the last window is open. */
  lemma AcceptedWhen(cfg: Config, side: Side, h: seq<Motion>, m: Motion)
    requires Short(cfg.xLen, h) && Tidy(side, cfg.tol, h + [m])
    ensures var h' := h + [m];
            Accepted(side, cfg, h') <==>
            Total(NetX, h') >= cfg.xLen && (OpenWindow(h') == [] || Steep(side, OpenWindow(h')))
  {
    var h' := h + [m];
    assert h'[..|h'| - 1] == h;
  }

  /** The phase after a motion while drawing, from its event and the open window. */
  lemma DrawNext(side: Side, t: Tracker, e: Event)
    requires t.phase == DrawPhase(side) && (e == TolFail || e == LineComplete || e == ContinueDraw)
    ensures Next(t, e).0 ==
            if e == LineComplete && (t.count == 0 || Over(t.lineX, Along(side, t.lineY))) then DonePhase(side)
            else if e == TolFail && side == Right then Initial
            else DrawPhase(side)
  {
    QuotientsDecide(side, t.lineX, t.lineY);
  }

  /** A motion while drawing, in the terms of the whole stroke: only an accepted one is declared done. */
  lemma DrawMotion(cfg: Config, side: Side, lb: bool, rb: bool, h: seq<Motion>, p: Packet)
    requires IsMotion(lb, rb, p)
    requires Tidy(side, cfg.tol, h) && Short(cfg.xLen, h)
    ensures var h' := h + [MotionOf(p)];
            Step(Unbounded, cfg, StrokeSummary(DrawPhase(side), lb, rb, h), p).phase ==
            if Accepted(side, cfg, h') then DonePhase(side)
            else if side == Right && !Tidy(side, cfg.tol, h') then Initial
            else DrawPhase(side)
  {
    var h' := h + [MotionOf(p)];
    var s := StrokeSummary(DrawPhase(side), lb, rb, h);
    var (t, e) := MotionEvent(Unbounded, cfg, s, p);
    MotionPhase(Unbounded, cfg, s, p);
    StrokeMotion(cfg, DrawPhase(side), lb, rb, h, p);
    DrawNext(side, t, e);
    if e != TolFail {
      AcceptedWhen(cfg, side, h, MotionOf(p));
    }
  }

  lemma MotionPhase(w: Width, cfg: Config, s: Tracker, p: Packet)
    requires IsMotion(s.lb, s.rb, p)
    ensures var (t, e) := MotionEvent(w, cfg, s, p); Step(w, cfg, s, p).phase == Next(t, e).0
  {
  }

  /** `reset_data` is called while the packet is handled. */
  predicate Resets(w: Width, cfg: Config, s: Tracker, p: Packet) {
    var (t, e) := Classify(w, cfg, s, p);
    Next(t, e).1
  }

  lemma EmptyIsAdmissible(cfg: Config, phase: Phase)
    ensures Admissible(cfg, phase, [])
  {
  }

  /** One packet: the state after it, and whether it reset the machine. */
  predicate Follows(w: Width, cfg: Config, s: Tracker, p: Packet, t: Tracker, reset: bool) {
    t == Step(w, cfg, s, p) && reset == Resets(w, cfg, s, p)
  }

  /** The motions since the last reset, after one more packet. */
  function Extended(s: Tracker, h: seq<Motion>, p: Packet, reset: bool): (h': seq<Motion>) {
    if reset then [] else if IsMotion(s.lb, s.rb, p) then h + [MotionOf(p)] else h
  }

  /** The state is the summary of a history that is admissible for its phase. */
  ghost predicate Summarises(cfg: Config, s: Tracker, h: seq<Motion>) {
    s == Summary(s.phase, s.lb, s.rb, h) && Admissible(cfg, s.phase, h)
  }

  /** What a reaction leaves of the history: nothing after a reset, all of it otherwise. */
  lemma ReactRefines(cfg: Config, s: Tracker, e: Event, h: seq<Motion>)
    requires s.phase == Vertex ==> s.count == 0
    requires !Next(s, e).1 ==> Summarises(cfg, s, h)
    ensures Summarises(cfg, React(s, e), if Next(s, e).1 then [] else h)
  {
    EmptyIsAdmissible(cfg, React(s, e).phase);
  }

  lemma StrokeRefines(cfg: Config, s: Tracker, h: seq<Motion>, p: Packet)
    requires Summarises(cfg, s, h) && OnStroke(s.phase) && IsMotion(s.lb, s.rb, p)
    ensures Summarises(cfg, Step(Unbounded, cfg, s, p), Extended(s, h, p, Resets(Unbounded, cfg, s, p)))
  {
    var (t, e) := MotionEvent(Unbounded, cfg, s, p);
    StrokeMotion(cfg, s.phase, s.lb, s.rb, h, p);
    if s.phase == DrawLeft || s.phase == DrawRight {
      ShortSnoc(cfg.xLen, h, MotionOf(p));
    }
    ReactRefines(cfg, t, e, h + [MotionOf(p)]);
  }

  lemma IdleRefines(cfg: Config, s: Tracker, h: seq<Motion>, p: Packet)
    requires Summarises(cfg, s, h) && !OnStroke(s.phase) && IsMotion(s.lb, s.rb, p)
    ensures Summarises(cfg, Step(Unbounded, cfg, s, p), Extended(s, h, p, Resets(Unbounded, cfg, s, p)))
  {
    var (t, e) := MotionEvent(Unbounded, cfg, s, p);
    IdleMotion(cfg, s.phase, s.lb, s.rb, h, p);
    ReactRefines(cfg, t, e, h + [MotionOf(p)]);
  }

  lemma ButtonRefines(cfg: Config, s: Tracker, h: seq<Motion>, p: Packet)
    requires Summarises(cfg, s, h) && !IsMotion(s.lb, s.rb, p)
    ensures Summarises(cfg, Step(Unbounded, cfg, s, p), Extended(s, h, p, Resets(Unbounded, cfg, s, p)))
  {
    var (t, e) := ButtonEvent(s, p);
    assert t == Summary(s.phase, t.lb, t.rb, h);
    ReactRefines(cfg, t, e, h);
  }

  /** Every packet keeps the state a summary of the history, and the history admissible for its phase. */
  lemma StepRefinesHistory(cfg: Config, s: Tracker, h: seq<Motion>, p: Packet, t: Tracker, reset: bool)
    requires Summarises(cfg, s, h) && Follows(Unbounded, cfg, s, p, t, reset)
    ensures Summarises(cfg, t, Extended(s, h, p, reset))
  {
    if !IsMotion(s.lb, s.rb, p) {
      ButtonRefines(cfg, s, h, p);
    } else if OnStroke(s.phase) {
      StrokeRefines(cfg, s, h, p);
    } else {
      IdleRefines(cfg, s, h, p);
    }
  }

  /** A reset leaves a summary of nothing, whatever the state was before. */
  lemma ResetForgets(w: Width, cfg: Config, s: Tracker, p: Packet, t: Tracker)
    requires Follows(w, cfg, s, p, t, true)
    ensures Summarises(cfg, t, [])
  {
    var (u, e) := Classify(w, cfg, s, p);
    assert t == React(u, e);
    EmptyIsAdmissible(cfg, t.phase);
  }

  /** The slope window is empty. */
  predicate Cleared(s: Tracker) {
    s.lineX == 0 && s.lineY == 0 && s.count == 0
  }

  /**
   * The packets of a run, the states between them and, beside each state, the number of packets consumed when
   * `reset_data` was last called, 0 at the start.
   */
  datatype Trace = Trace(ps: seq<Packet>, ss: seq<Tracker>, since: seq<nat>) {
    /** A session: a run from what `init_data` leaves, in whatever phase and with whatever slope window. */
    ghost predicate Valid(w: Width, cfg: Config) {
      ss != [] && ss[0] == Initialised(ss[0]) && ValidFrom(ss[0], w, cfg)
    }

    /** The slope window holds nothing from before the session. */
    predicate Settled(n: nat)
      requires n < |since| == |ss|
    {
      since[n] > 0 || Cleared(ss[0])
    }

    ghost predicate ValidFrom(s: Tracker, w: Width, cfg: Config) {
      && |since| == |ss| == |ps| + 1
      && ss[0] == s && since[0] == 0
      && (forall i: nat | i <= |ps| :: since[i] <= i)
      && (forall i: nat | i < |ps| :: StepAt(w, cfg, i))
    }

    predicate StepAt(w: Width, cfg: Config, i: nat)
      requires |since| == |ss| == |ps| + 1 && i < |ps|
    {
      && (since[i + 1] == i + 1 || since[i + 1] == since[i])
      && Follows(w, cfg, ss[i], ps[i], ss[i + 1], since[i + 1] == i + 1)
    }
  }

  lemma OneMorePacket(w: Width, cfg: Config, s: Tracker, r: Trace, p: Packet) returns (q: Trace)
    requires r.ValidFrom(s, w, cfg)
    ensures q.ValidFrom(s, w, cfg) && q.ps == r.ps + [p]
    ensures q.ss == r.ss + [Step(w, cfg, r.ss[|r.ps|], p)]
  {
    var n := |r.ps|;
    var t, reset := Step(w, cfg, r.ss[n], p), Resets(w, cfg, r.ss[n], p);
    q := Trace(r.ps + [p], r.ss + [t], r.since + [if reset then n + 1 else r.since[n]]);
    forall i: nat | i < |q.ps|
      ensures q.StepAt(w, cfg, i)
    {
      assert i < n ==> r.StepAt(w, cfg, i);
    }
  }

  /** Every packet sequence has a run. */
  lemma {:induction false} RunExists(w: Width, cfg: Config, s: Tracker, ps: seq<Packet>) returns (r: Trace)
    ensures r.ValidFrom(s, w, cfg) && r.ps == ps
  {
    if ps == [] {
      r := Trace([], [s], [0]);
    } else {
      r := RunExists(w, cfg, s, ps[..|ps| - 1]);
      r := OneMorePacket(w, cfg, s, r, ps[|ps| - 1]);
    }
  }

  /** The buttons as tracked: the left one catches up first, the right one only when the left one agrees. */
  function Held(ps: seq<Packet>, n: nat): (held: (bool, bool))
    requires n <= |ps|
  {
    if n == 0 then (false, false)
    else
      var (lb, rb) := Held(ps, n - 1);
      var p := ps[n - 1];
      if p.lb != lb then (p.lb, rb) else (lb, p.rb)
  }

  predicate MovesAt(ps: seq<Packet>, n: nat)
    requires n < |ps|
  {
    IsMotion(Held(ps, n).0, Held(ps, n).1, ps[n])
  }

  /** The motions among packets i to j. */
  function Moves(ps: seq<Packet>, i: nat, j: nat): (h: seq<Motion>)
    requires j <= |ps|
  {
    if j <= i then []
    else if MovesAt(ps, j - 1) then Moves(ps, i, j - 1) + [MotionOf(ps[j - 1])]
    else Moves(ps, i, j - 1)
  }

  /** The motions since the last reset. */
  function Recent(r: Trace, n: nat): (h: seq<Motion>)
    requires n <= |r.ps| < |r.since|
  {
    Moves(r.ps, r.since[n], n)
  }

  /** A motion is never reported as a button event, and leaves phase and buttons alone. */
  lemma MotionKeeps(w: Width, cfg: Config, s: Tracker, p: Packet)
    ensures var (t, e) := MotionEvent(w, cfg, s, p);
            && t.phase == s.phase && t.lb == s.lb && t.rb == s.rb
            && (e == TolFail || e == LineComplete || e == ContinueDraw)
  {
  }

  /** A button event reports the change it stands for, and is then tracked. */
  lemma ButtonEvents(w: Width, cfg: Config, s: Tracker, p: Packet)
    ensures var (t, e) := Classify(w, cfg, s, p);
            && t.phase == s.phase
            && match e
               case LeftDown => !s.lb && p.lb && t.lb && t.rb == s.rb
               case LeftUp => s.lb && !p.lb && !t.lb && t.rb == s.rb
               case RightDown => !s.rb && p.rb && t.rb && t.lb == s.lb
               case RightUp => s.rb && !p.rb && !t.rb && t.lb == s.lb
               case _ => IsMotion(s.lb, s.rb, p) && t.lb == s.lb && t.rb == s.rb
  {
    MotionKeeps(w, cfg, s, p);
  }

  lemma ReactKeepsButtons(s: Tracker, e: Event)
    ensures React(s, e).lb == s.lb && React(s, e).rb == s.rb
  {
  }

  lemma StepTracksButtons(w: Width, cfg: Config, s: Tracker, p: Packet)
    ensures var t := Step(w, cfg, s, p);
            (t.lb, t.rb) == if p.lb != s.lb then (p.lb, s.rb) else (s.lb, p.rb)
  {
    var (t, e) := Classify(w, cfg, s, p);
    ButtonsTracked(w, cfg, s, p);
    ReactKeepsButtons(t, e);
  }

  lemma ButtonsTracked(w: Width, cfg: Config, s: Tracker, p: Packet)
    ensures var t := Classify(w, cfg, s, p).0;
            (t.lb, t.rb) == if p.lb != s.lb then (p.lb, s.rb) else (s.lb, p.rb)
  {
    MotionKeeps(w, cfg, s, p);
  }

  /** The tracked buttons depend on the packets alone, not on the phase, the widths or the configuration. */
  lemma {:induction false} HeldIsTracked(w: Width, cfg: Config, r: Trace, n: nat)
    requires r.Valid(w, cfg) && n <= |r.ps|
    ensures (r.ss[n].lb, r.ss[n].rb) == Held(r.ps, n)
  {
    if n > 0 {
      HeldIsTracked(w, cfg, r, n - 1);
      StepTracksButtons(w, cfg, r.ss[n - 1], r.ps[n - 1]);
      assert r.StepAt(w, cfg, n - 1);
    }
  }

  lemma RecentStep(cfg: Config, r: Trace, n: nat)
    requires r.Valid(Unbounded, cfg) && n < |r.ps|
    ensures Recent(r, n + 1) == Extended(r.ss[n], Recent(r, n), r.ps[n], r.since[n + 1] == n + 1)
  {
    HeldIsTracked(Unbounded, cfg, r, n);
    assert r.StepAt(Unbounded, cfg, n);
  }

  lemma StartIsSummarised(cfg: Config, s: Tracker)
    requires s == Initialised(s) && Cleared(s)
    ensures Summarises(cfg, s, [])
  {
    EmptyIsAdmissible(cfg, s.phase);
  }

  lemma HistoryBegins(cfg: Config, r: Trace, n: nat)
    requires r.Valid(Unbounded, cfg) && n < |r.ps| && r.since[n + 1] == n + 1
    ensures Summarises(cfg, r.ss[n + 1], Recent(r, n + 1))
  {
    assert r.StepAt(Unbounded, cfg, n);
    RecentStep(cfg, r, n);
    ResetForgets(Unbounded, cfg, r.ss[n], r.ps[n], r.ss[n + 1]);
  }

  lemma HistoryGoesOn(cfg: Config, r: Trace, n: nat)
    requires r.Valid(Unbounded, cfg) && n < |r.ps| && r.since[n + 1] != n + 1
    requires Summarises(cfg, r.ss[n], Recent(r, n))
    ensures Summarises(cfg, r.ss[n + 1], Recent(r, n + 1))
  {
    assert r.StepAt(Unbounded, cfg, n);
    RecentStep(cfg, r, n);
    StepRefinesHistory(cfg, r.ss[n], Recent(r, n), r.ps[n], r.ss[n + 1], false);
  }

  lemma SettledBefore(cfg: Config, r: Trace, n: nat)
    requires r.Valid(Unbounded, cfg) && n < |r.ps| && r.Settled(n + 1) && r.since[n + 1] != n + 1
    ensures r.Settled(n)
  {
    assert r.StepAt(Unbounded, cfg, n);
  }

  /** Accumulators refine history: once settled, every field is the stated sum over the motions since the last reset. */
  lemma {:induction false} AccumulatorsRefineHistory(cfg: Config, r: Trace, n: nat)
    requires r.Valid(Unbounded, cfg) && n <= |r.ps| && r.Settled(n)
    ensures Summarises(cfg, r.ss[n], Recent(r, n))
  {
    if n == 0 {
      StartIsSummarised(cfg, r.ss[0]);
    } else if r.since[n] == n {
      HistoryBegins(cfg, r, n - 1);
    } else {
      SettledBefore(cfg, r, n - 1);
      AccumulatorsRefineHistory(cfg, r, n - 1);
      HistoryGoesOn(cfg, r, n - 1);
    }
  }
}
