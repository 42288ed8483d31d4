/** The gesture recogniser of lab4/mouse_state.c: its state, one event of it as a function, and the mutable machine. */
module Gesture {
  import opened Bytes
  import opened MousePacket

  datatype Phase = Initial | DrawLeft | LeftDone | Vertex | DrawRight | RightDone | Exit

  datatype Event = RightDown | RightUp | LeftDown | LeftUp | TolFail | LineComplete | ContinueDraw

  const PACKET_SLOPE_COUNT: nat := 20

  /** The arguments of `mouse_test_gesture`, constant over a run. */
  datatype Config = Config(tol: Byte, xLen: Byte)

  /** `currState`, `currData`, `line_start_packet` and `packet_count`. */
  datatype Tracker = Tracker(phase: Phase, lb: bool, rb: bool,
                             x: int, y: int, xTol: int, yTol: int,
                             lineX: int, lineY: int, count: nat)

  /** The arithmetic the accumulators use: that of the integers, or that of `int32_t` and `uint32_t`. */
  datatype Width = Unbounded | Bits32 {
    function Signed(v: int): (wrapped: int) {
      match this
      case Unbounded => v
      case Bits32 => (v + 0x8000_0000) % 0x1_0000_0000 - 0x8000_0000
    }

    function Unsigned(v: int): (wrapped: int) {
      match this
      case Unbounded => v
      case Bits32 => v % 0x1_0000_0000
    }
  }

  /** A word holds the value in its range that differs from the exact one by a multiple of 2^32. */
  lemma WrapsAround(v: int, n: int)
    ensures Bits32.Signed(v) == n <==> -0x8000_0000 <= n < 0x8000_0000 && (n - v) % 0x1_0000_0000 == 0
    ensures Bits32.Unsigned(v) == n <==> 0 <= n < 0x1_0000_0000 && (n - v) % 0x1_0000_0000 == 0
  {
  }

  /** The value of a double division of two integers, as IEEE 754 defines it. */
  datatype Quotient = NaN | PosInf | NegInf | Ratio(num: int, den: int) {
    predicate BelowMinusOne() {
      NegInf? || (Ratio? && num < -den)
    }

    predicate AboveOne() {
      PosInf? || (Ratio? && num > den)
    }

    predicate AtMostOne() {
      NegInf? || (Ratio? && num <= den)
    }

    predicate AtLeastMinusOne() {
      PosInf? || (Ratio? && num >= -den)
    }
  }

  function Divide(y: int, x: int): (q: Quotient) {
    if x > 0 then Ratio(y, x)
    else if x < 0 then Ratio(-y, -x)
    else if y > 0 then PosInf
    else if y < 0 then NegInf
    else NaN
  }

  /** The four slope tests as inequalities; a divisor of zero decides by the sign of the dividend, and 0/0 fails all. */
  lemma SlopeTests(y: int, x: int)
    ensures Divide(y, x).AtMostOne() <==> (x > 0 && y <= x) || (x < 0 && y >= x) || (x == 0 && y < 0)
    ensures Divide(y, x).AboveOne() <==> (x > 0 && y > x) || (x < 0 && y < x) || (x == 0 && y > 0)
    ensures Divide(y, x).AtLeastMinusOne() <==> (x > 0 && y >= -x) || (x < 0 && y <= -x) || (x == 0 && y > 0)
    ensures Divide(y, x).BelowMinusOne() <==> (x > 0 && y < -x) || (x < 0 && y > -x) || (x == 0 && y < 0)
  {
  }

  function Slope(s: Tracker): (q: Quotient) {
    Divide(s.lineY, s.lineX)
  }

  function Reset(s: Tracker): (t: Tracker) {
    Tracker(s.phase, s.lb, s.rb, 0, 0, 0, 0, 0, 0, 0)
  }

  /** The packet repeats the buttons already seen, so it is read as motion. */
  predicate IsMotion(lb: bool, rb: bool, p: Packet) {
    p.lb == lb && p.rb == rb
  }

  /** One button change is taken from a packet, the left one first; its motion is dropped. */
  function ButtonEvent(s: Tracker, p: Packet): (r: (Tracker, Event))
    requires !IsMotion(s.lb, s.rb, p)
  {
    if p.lb && !s.lb then (s.(lb := true), LeftDown)
    else if !p.lb && s.lb then (s.(lb := false), LeftUp)
    else if p.rb && !s.rb then (s.(rb := true), RightDown)
    else (s.(rb := false), RightUp)
  }

  function Displaced(w: Width, s: Tracker, p: Packet): (t: Tracker) {
    s.(x := w.Signed(s.x + p.dx), y := w.Signed(s.y + p.dy),
       lineX := w.Signed(s.lineX + p.dx), lineY := w.Signed(s.lineY + p.dy))
  }

  function Gain(v: int): (gain: int) {
    if v > 0 then v else 0
  }

  function Loss(v: int): (loss: int) {
    if v < 0 then -v else 0
  }

  function Abs(v: int): (magnitude: int) {
    if v > 0 then v else -v
  }

  function Tolerated(w: Width, s: Tracker, dx: int, dy: int): (t: Tracker) {
    s.(xTol := w.Unsigned(s.xTol + dx), yTol := w.Unsigned(s.yTol + dy))
  }

  function Counted(s: Tracker): (t: Tracker) {
    s.(count := s.count + 1)
  }

  function Reached(cfg: Config, s: Tracker): (r: (Tracker, Event)) {
    (s, if s.x >= cfg.xLen then LineComplete else ContinueDraw)
  }

  /** The tolerance and slope tests shared by the two strokes; `flat` is the failing slope test. */
  function StrokeEvent(cfg: Config, s: Tracker, flat: bool): (r: (Tracker, Event)) {
    if s.xTol > cfg.tol || s.yTol > cfg.tol then (s, TolFail)
    else if s.count != PACKET_SLOPE_COUNT then Reached(cfg, s)
    else if flat then (s, TolFail)
    else Reached(cfg, s.(count := 0, lineX := 0, lineY := 0))
  }

  function MotionEvent(w: Width, cfg: Config, s: Tracker, p: Packet): (r: (Tracker, Event)) {
    var t := Displaced(w, s, p);
    match s.phase
    case LeftDone | DrawLeft =>
      var u := Tolerated(w, Counted(t), Loss(p.dx), Loss(p.dy));
      StrokeEvent(cfg, u, Slope(u).AtMostOne())
    case RightDone | DrawRight =>
      var u := Tolerated(w, Counted(t), Loss(p.dx), Gain(p.dy));
      StrokeEvent(cfg, u, Slope(u).AtLeastMinusOne())
    case Vertex =>
      var u := Tolerated(w, t, Abs(p.dx), Abs(p.dy));
      if u.xTol > cfg.tol || u.yTol > cfg.tol then (u, TolFail) else Reached(cfg, u)
    case _ => Reached(cfg, t)
  }

  /** `packet_to_event`. */
  function Classify(w: Width, cfg: Config, s: Tracker, p: Packet): (r: (Tracker, Event)) {
    if IsMotion(s.lb, s.rb, p) then MotionEvent(w, cfg, s, p) else ButtonEvent(s, p)
  }

  /** The phase an event leads to and whether `reset_data` is called; `s` is the state `packet_to_event` left. */
  function Next(s: Tracker, e: Event): (r: (Phase, bool)) {
    match s.phase
    case Initial => if e == LeftDown then (DrawLeft, true) else (Initial, false)
    case DrawLeft =>
      if e == LeftUp then (Initial, true)
      else if e == TolFail then (DrawLeft, true)
      else if e == LineComplete then (if s.count == 0 || Slope(s).AboveOne() then LeftDone else DrawLeft, true)
      else (DrawLeft, false)
    case LeftDone =>
      if e == LeftUp then (Vertex, true)
      else if e == TolFail then (DrawLeft, true)
      else if e == RightDown then (Initial, true)
      else (LeftDone, false)
    case Vertex =>
      if e == RightDown then (DrawRight, true)
      else if e == LeftDown then (DrawLeft, true)
      else if e == TolFail then (Initial, true)
      else (Vertex, false)
    case DrawRight =>
      if e == RightUp || e == TolFail then (Initial, true)
      else if e == LineComplete then (if s.count == 0 || Slope(s).BelowMinusOne() then RightDone else DrawRight, true)
      else (DrawRight, false)
    case RightDone =>
      if e == RightUp then (Exit, true)
      else if e == TolFail || e == LeftDown then (Initial, true)
      else (RightDone, false)
    case Exit => (Exit, false)
  }

  function React(s: Tracker, e: Event): (t: Tracker) {
    var (phase, reset) := Next(s, e);
    var t := if s.phase == Vertex then s.(count := 0) else s;
    if reset then Reset(t.(phase := phase)) else t.(phase := phase)
  }

  /** `handle_mouse_event`. */
  function Step(w: Width, cfg: Config, s: Tracker, p: Packet): (t: Tracker) {
    var (t, e) := Classify(w, cfg, s, p);
    React(t, e)
  }

  /** Program start: zeroed globals. */
  const START := Tracker(Initial, false, false, 0, 0, 0, 0, 0, 0, 0)

  /** What `init_data` makes of the globals it finds: phase, slope window and its packet count stay. */
  function Initialised(s: Tracker): (t: Tracker) {
    START.(phase := s.phase, lineX := s.lineX, lineY := s.lineY, count := s.count)
  }

  /** The module's globals, updated in place. */
  class Machine {
    var phase: Phase
    var lb: bool
    var rb: bool
    var x: int
    var y: int
    var xTol: int
    var yTol: int
    var lineX: int
    var lineY: int
    var count: nat

    function State(): (s: Tracker)
      reads this
    {
      Tracker(phase, lb, rb, x, y, xTol, yTol, lineX, lineY, count)
    }

    /** Static storage is zeroed. */
    constructor ()
      ensures State() == START
    {
      phase, lb, rb := Initial, false, false;
      x, y, xTol, yTol, lineX, lineY, count := 0, 0, 0, 0, 0, 0, 0;
    }

    method InitData()
      modifies this
      ensures State() == Initialised(old(State()))
      ensures !lb && !rb && x == 0 && y == 0 && xTol == 0 && yTol == 0
      ensures phase == old(phase) && lineX == old(lineX) && lineY == old(lineY) && count == old(count)
    {
      rb, lb := false, false;
      x, y := 0, 0;
      xTol, yTol := 0, 0;
    }

    method ResetData()
      modifies this
      ensures State() == Reset(old(State()))
    {
      x, y := 0, 0;
      xTol, yTol := 0, 0;
      lineX, lineY := 0, 0;
      count := 0;
    }

    /** The displacement half of the motion branch of `packet_to_event`. */
    method Displace(p: Packet)
      modifies this
      ensures State() == Displaced(Bits32, old(State()), p)
    {
      x := Bits32.Signed(x + p.dx);
      y := Bits32.Signed(y + p.dy);
      lineX := Bits32.Signed(lineX + p.dx);
      lineY := Bits32.Signed(lineY + p.dy);
    }

    /** The tolerance half. */
    method Tolerate(dx: int, dy: int)
      modifies this
      ensures State() == Tolerated(Bits32, old(State()), dx, dy)
    {
      xTol := Bits32.Unsigned(xTol + dx);
      yTol := Bits32.Unsigned(yTol + dy);
    }

    /** The tests that close the two stroke cases of `packet_to_event`; `flat` is the case's failing slope. */
    method CheckStroke(cfg: Config, flat: bool) returns (e: Event)
      modifies this
      ensures (State(), e) == StrokeEvent(cfg, old(State()), flat)
    {
      if xTol > cfg.tol || yTol > cfg.tol {
        return TolFail;
      }
      if count == PACKET_SLOPE_COUNT {
        if flat {
          return TolFail;
        }
        count, lineY, lineX := 0, 0, 0;
      }
      return if x >= cfg.xLen then LineComplete else ContinueDraw;
    }

    /** The last branch of `packet_to_event`. */
    method MotionToEvent(cfg: Config, p: Packet) returns (e: Event)
      requires IsMotion(lb, rb, p)
      modifies this
      ensures (State(), e) == MotionEvent(Bits32, cfg, old(State()), p)
    {
      Displace(p);
      match phase {
        case LeftDone | DrawLeft =>
          count := count + 1;
          Tolerate(Loss(p.dx), Loss(p.dy));
          e := CheckStroke(cfg, Divide(lineY, lineX).AtMostOne());
        case RightDone | DrawRight =>
          count := count + 1;
          Tolerate(Loss(p.dx), Gain(p.dy));
          e := CheckStroke(cfg, Divide(lineY, lineX).AtLeastMinusOne());
        case Vertex =>
          Tolerate(Abs(p.dx), Abs(p.dy));
          e := if xTol > cfg.tol || yTol > cfg.tol then TolFail
               else if x >= cfg.xLen then LineComplete else ContinueDraw;
        case _ =>
          e := if x >= cfg.xLen then LineComplete else ContinueDraw;
      }
    }

    method PacketToEvent(cfg: Config, p: Packet) returns (e: Event)
      modifies this
      ensures (State(), e) == Classify(Bits32, cfg, old(State()), p)
    {
      if p.lb && !lb {
        lb := true;
        return LeftDown;
      } else if !p.lb && lb {
        lb := false;
        return LeftUp;
      } else if p.rb && !rb {
        rb := true;
        return RightDown;
      } else if !p.rb && rb {
        rb := false;
        return RightUp;
      }
      e := MotionToEvent(cfg, p);
    }

    method HandleMouseEvent(cfg: Config, p: Packet) returns (result: Phase)
      modifies this
      ensures State() == Step(Bits32, cfg, old(State()), p)
      ensures result == phase
    {
      var e := PacketToEvent(cfg, p);
      match phase {
        case Initial =>
          if e == LeftDown {
            phase := DrawLeft;
            ResetData();
          }
        case DrawLeft =>
          if e == LeftUp {
            phase := Initial;
            ResetData();
          } else if e == TolFail {
            ResetData();
          } else if e == LineComplete {
            if count == 0 || Divide(lineY, lineX).AboveOne() {
              phase := LeftDone;
            }
            ResetData();
          }
        case LeftDone =>
          if e == LeftUp {
            phase := Vertex;
            ResetData();
          } else if e == TolFail {
            phase := DrawLeft;
            ResetData();
          } else if e == RightDown {
            phase := Initial;
            ResetData();
          }
        case Vertex =>
          count := 0;
          if e == RightDown {
            phase := DrawRight;
            ResetData();
          } else if e == LeftDown {
            phase := DrawLeft;
            ResetData();
          } else if e == TolFail {
            phase := Initial;
            ResetData();
          }
        case DrawRight =>
          if e == RightUp {
            phase := Initial;
            ResetData();
          } else if e == TolFail {
            phase := Initial;
            ResetData();
          } else if e == LineComplete {
            if count == 0 || Divide(lineY, lineX).BelowMinusOne() {
              phase := RightDone;
            }
            ResetData();
          }
        case RightDone =>
          if e == RightUp {
            phase := Exit;
            ResetData();
          } else if e == TolFail {
            phase := Initial;
            ResetData();
          } else if e == LeftDown {
            phase := Initial;
            ResetData();
          }
        case Exit =>
      }
      return phase;
    }
  }
}
