/** PadBool: gamepad stick axes latched to -1/0/+1 by a Schmitt trigger with
    an opposite-direction guard, the per-frame direction caches built from
    the latches and the D-pad, and the selection of an input source.  The
    device (its stick values, D-pad flags and Time.frameCount) is an input;
    each cache is the dictionary entry of one device. */
module Pad {
  import opened Geometry
  import opened Directions

  // ---------------------------------------------------------------------
  // One axis

  /** StickHysteresisHi / Lo and StickOppositeGuardFrames. */
  datatype Hysteresis = Hysteresis(hi: real, lo: real, guardFrames: int)

  const Defaults := Hysteresis(0.45, 0.25, 2)

  predicate Latch(s: int) { s == -1 || s == 0 || s == 1 }

  /** The direction of a value: zero counts as positive. */
  function AxisSign(v: real): (s: int)
    ensures s == 1 <==> v >= 0.0
    ensures s == 1 || s == -1
  {
    if v >= 0.0 then 1 else -1
  }

  /** UpdateAxisWithHysteresis: the new latch and last-neutral frame.
      Inside the dead zone (|v| <= lo) the latch is 0 and the frame is
      recorded; from 0 it takes the value's sign once |v| >= hi; a latched
      axis keeps its direction, and turns to the opposite one only with
      |v| >= hi and at least guardFrames frames since the last neutral
      frame. */
  function UpdateAxisWithHysteresis(h: Hysteresis, state: int, lastZeroFrame: int, value: real, frame: int)
    : (r: (int, int))
    requires Latch(state)
    ensures Latch(r.0)
    ensures Abs(value) <= h.lo ==> r == (0, frame)
    ensures Abs(value) > h.lo ==> r.1 == lastZeroFrame
    ensures Abs(value) > h.lo && state == 0 ==> (r.0 != 0 <==> Abs(value) >= h.hi) && (r.0 != 0 ==> r.0 == AxisSign(value))
    ensures Abs(value) > h.lo && state == AxisSign(value) ==> r.0 == state
    ensures Abs(value) > h.lo && state == -AxisSign(value) ==>
              (r.0 != state <==> frame - lastZeroFrame >= h.guardFrames && Abs(value) >= h.hi)
              && (r.0 == state || r.0 == AxisSign(value))
  {
    var a := Abs(value);
    var sign := AxisSign(value);
    if a <= h.lo then (0, frame)
    else if state == 0 then (if a >= h.hi then sign else 0, lastZeroFrame)
    else if sign == state then (state, lastZeroFrame)
    else if frame - lastZeroFrame >= h.guardFrames && a >= h.hi then (sign, lastZeroFrame)
    else (state, lastZeroFrame)
  }

  /** The latch after one value per frame, starting at `frame`. */
  function RunAxis(h: Hysteresis, state: int, lastZeroFrame: int, values: seq<real>, frame: int): (r: (int, int))
    requires Latch(state)
    ensures Latch(r.0)
    decreases |values|
  {
    if |values| == 0 then (state, lastZeroFrame)
    else
      var (s, z) := UpdateAxisWithHysteresis(h, state, lastZeroFrame, values[0], frame);
      RunAxis(h, s, z, values[1..], frame + 1)
  }

  /** Hysteresis: a latched +1 survives any run of values above lo. */
  lemma {:induction false} LatchHoldsAboveLo(h: Hysteresis, lastZeroFrame: int, values: seq<real>, frame: int)
    requires h.lo >= 0.0
    requires forall i :: 0 <= i < |values| ==> values[i] > h.lo
    ensures RunAxis(h, 1, lastZeroFrame, values, frame).0 == 1
    decreases |values|
  {
    if |values| > 0 {
      LatchHoldsAboveLo(h, lastZeroFrame, values[1..], frame + 1);
    }
  }

  /** The mirror case: a latched -1 survives any run of values below -lo. */
  lemma {:induction false} LatchHoldsBelowMinusLo(h: Hysteresis, lastZeroFrame: int, values: seq<real>, frame: int)
    requires h.lo >= 0.0
    requires forall i :: 0 <= i < |values| ==> values[i] < -h.lo
    ensures RunAxis(h, -1, lastZeroFrame, values, frame).0 == -1
    decreases |values|
  {
    if |values| > 0 {
      LatchHoldsBelowMinusLo(h, lastZeroFrame, values[1..], frame + 1);
    }
  }

  /** A neutral latch stays neutral while every value stays below hi. */
  lemma {:induction false} NeutralNeedsHi(h: Hysteresis, lastZeroFrame: int, values: seq<real>, frame: int)
    requires forall i :: 0 <= i < |values| ==> Abs(values[i]) < h.hi
    ensures RunAxis(h, 0, lastZeroFrame, values, frame).0 == 0
    decreases |values|
  {
    if |values| > 0 {
      var (s, z) := UpdateAxisWithHysteresis(h, 0, lastZeroFrame, values[0], frame);
      NeutralNeedsHi(h, z, values[1..], frame + 1);
    }
  }

  // ---------------------------------------------------------------------
  // Edges

  /** The D-pad version also ORs in wasPressed/wasReleasedThisFrame. */
  function DpadEdge(prev: bool, now: bool, wasPressed: bool, wasReleased: bool): (e: Edge)
    ensures !wasPressed && !wasReleased ==> e == StepEdge(prev, now)
    ensures e.held == now
    ensures e.down <==> wasPressed || StepEdge(prev, now).down
    ensures e.up <==> wasReleased || StepEdge(prev, now).up
  {
    Edge(now, wasPressed || (now && !prev), wasReleased || (!now && prev))
  }

  // ---------------------------------------------------------------------
  // The Schmitt cache

  /** One frame's stick values. */
  datatype Sticks = Sticks(lx: real, ly: real, rx: real, ry: real)

  datatype Schmitt = Schmitt(frame: int, lx: int, ly: int, rx: int, ry: int,
                             lxZero: int, lyZero: int, rxZero: int, ryZero: int,
                             lMoved: Edge, rMoved: Edge)

  /** The dictionary's default entry (frame 0, everything neutral). */
  const NoSchmitt := Schmitt(0, 0, 0, 0, 0, 0, 0, 0, 0, Edge(false, false, false), Edge(false, false, false))

  predicate Latched(s: Schmitt) { Latch(s.lx) && Latch(s.ly) && Latch(s.rx) && Latch(s.ry) }

  /** EnsureSchmitt: an entry already computed this frame is returned as
      is; otherwise the four axes are updated and the "moved" flag of each
      stick (some axis non-zero) gets its edges against the stored one. */
  function EnsureSchmitt(st: Schmitt, frame: int, v: Sticks, h: Hysteresis): (r: Schmitt)
    requires Latched(st)
    ensures Latched(r)
    ensures st.frame == frame ==> r == st
    ensures st.frame != frame ==>
              r.frame == frame
              && (r.lx, r.lxZero) == UpdateAxisWithHysteresis(h, st.lx, st.lxZero, v.lx, frame)
              && (r.ly, r.lyZero) == UpdateAxisWithHysteresis(h, st.ly, st.lyZero, v.ly, frame)
              && (r.rx, r.rxZero) == UpdateAxisWithHysteresis(h, st.rx, st.rxZero, v.rx, frame)
              && (r.ry, r.ryZero) == UpdateAxisWithHysteresis(h, st.ry, st.ryZero, v.ry, frame)
              && r.lMoved == StepEdge(st.lx != 0 || st.ly != 0, r.lx != 0 || r.ly != 0)
              && r.rMoved == StepEdge(st.rx != 0 || st.ry != 0, r.rx != 0 || r.ry != 0)
  {
    if st.frame == frame then st
    else
      var (lx, lxz) := UpdateAxisWithHysteresis(h, st.lx, st.lxZero, v.lx, frame);
      var (ly, lyz) := UpdateAxisWithHysteresis(h, st.ly, st.lyZero, v.ly, frame);
      var (rx, rxz) := UpdateAxisWithHysteresis(h, st.rx, st.rxZero, v.rx, frame);
      var (ry, ryz) := UpdateAxisWithHysteresis(h, st.ry, st.ryZero, v.ry, frame);
      Schmitt(frame, lx, ly, rx, ry, lxz, lyz, rxz, ryz,
              StepEdge(st.lx != 0 || st.ly != 0, lx != 0 || ly != 0),
              StepEdge(st.rx != 0 || st.ry != 0, rx != 0 || ry != 0))
  }

  /** A second call in the same frame returns the stored entry, whatever
      the sticks read now. */
  lemma EnsureSchmittOncePerFrame(st: Schmitt, frame: int, v1: Sticks, v2: Sticks, h: Hysteresis)
    requires Latched(st)
    ensures var once := EnsureSchmitt(st, frame, v1, h);
            EnsureSchmitt(once, frame, v2, h) == once
  {
  }

  // ---------------------------------------------------------------------
  // Directions

  /** The directions one stick's latches hold. */
  function StickDirs(x: int, y: int): (s: Dirs)
    ensures s.r <==> x > 0
    ensures s.l <==> x < 0
    ensures s.u <==> y > 0
    ensures s.d <==> y < 0
    ensures !(s.r && s.l) && !(s.u && s.d)
  {
    Dirs(x > 0, x < 0, y > 0, y < 0)
  }

  /** This frame's D-pad: isPressed, wasPressedThisFrame, wasReleasedThisFrame. */
  datatype Dpad = Dpad(pressed: Dirs, wasPressed: Dirs, wasReleased: Dirs)

  function DpadDirs(prev: Dirs, pad: Dpad): (e: DirEdges)
    ensures e.held == pad.pressed
    ensures pad.wasPressed == NoDirs && pad.wasReleased == NoDirs ==> e == StepDirs(prev, pad.pressed)
  {
    var r := DpadEdge(prev.r, pad.pressed.r, pad.wasPressed.r, pad.wasReleased.r);
    var l := DpadEdge(prev.l, pad.pressed.l, pad.wasPressed.l, pad.wasReleased.l);
    var u := DpadEdge(prev.u, pad.pressed.u, pad.wasPressed.u, pad.wasReleased.u);
    var d := DpadEdge(prev.d, pad.pressed.d, pad.wasPressed.d, pad.wasReleased.d);
    DirEdges(pad.pressed, Dirs(r.down, l.down, u.down, d.down), Dirs(r.up, l.up, u.up, d.up))
  }

  /** The combined ("Any") direction cache of EnsureDirState. */
  datatype DirState = DirState(frame: int, edges: DirEdges)

  /** EnsureDirState: recomputed at most once per frame; Held is either
      stick's latch or the D-pad, Down/Up are its edges ORed with the
      D-pad's pressed/released-this-frame flags.  Without D-pad
      this-frame flags the edges are clean. */
  function EnsureDirState(st: DirState, sch: Schmitt, frame: int, v: Sticks, pad: Dpad, h: Hysteresis)
    : (r: (DirState, Schmitt))
    requires Latched(sch)
    ensures Latched(r.1)
    ensures st.frame == frame ==> r == (st, sch)
    ensures st.frame != frame ==>
              var s := EnsureSchmitt(sch, frame, v, h);
              r.1 == s && r.0.frame == frame
              && r.0.edges.held == Or(Or(StickDirs(s.lx, s.ly), StickDirs(s.rx, s.ry)), pad.pressed)
              && r.0.edges.down == Or(pad.wasPressed, StepDirs(st.edges.held, r.0.edges.held).down)
              && r.0.edges.up == Or(pad.wasReleased, StepDirs(st.edges.held, r.0.edges.held).up)
    ensures st.frame != frame && pad.wasPressed == NoDirs && pad.wasReleased == NoDirs ==>
              CleanEdges(st.edges.held, r.0.edges)
  {
    if st.frame == frame then (st, sch)
    else
      var s := EnsureSchmitt(sch, frame, v, h);
      var held := Or(Or(StickDirs(s.lx, s.ly), StickDirs(s.rx, s.ry)), pad.pressed);
      var e := DpadDirs(st.edges.held, Dpad(held, pad.wasPressed, pad.wasReleased));
      StepDirsClean(st.edges.held, held);
      (DirState(frame, e), s)
  }

  // ---------------------------------------------------------------------
  // Per-source caches

  datatype DirInputSource = Any | LStick | RStick | DPad | SticksOnly

  /** The per-source cache of EnsureDirStateBySource. */
  datatype SourceState = SourceState(frame: int, ls: DirEdges, rs: DirEdges, dp: DirEdges)

  /** The per-source previous Held flags (s_PrevSrc). */
  datatype SourcePrev = SourcePrev(frame: int, ls: Dirs, rs: Dirs, dp: Dirs)

  /** EnsureDirStateBySource: at most once per frame, each source's Held
      comes from its own latches (or the D-pad), its edges from the stored
      previous Held, and the previous Held is then updated.  The stick
      sources' edges are always clean. */
  function EnsureDirStateBySource(st: SourceState, prev: SourcePrev, sch: Schmitt, frame: int, v: Sticks,
                                  pad: Dpad, h: Hysteresis): (r: (SourceState, SourcePrev, Schmitt))
    requires Latched(sch)
    ensures Latched(r.2)
    ensures st.frame == frame ==> r == (st, prev, sch)
    ensures st.frame != frame ==>
              var s := EnsureSchmitt(sch, frame, v, h);
              r.2 == s && r.0.frame == frame && r.1.frame == frame
              && r.0.ls == StepDirs(prev.ls, StickDirs(s.lx, s.ly))
              && r.0.rs == StepDirs(prev.rs, StickDirs(s.rx, s.ry))
              && r.0.dp == DpadDirs(prev.dp, pad)
              && r.1 == SourcePrev(frame, r.0.ls.held, r.0.rs.held, r.0.dp.held)
              && CleanEdges(prev.ls, r.0.ls) && CleanEdges(prev.rs, r.0.rs)
  {
    if st.frame == frame then (st, prev, sch)
    else
      var s := EnsureSchmitt(sch, frame, v, h);
      var ls := StepDirs(prev.ls, StickDirs(s.lx, s.ly));
      var rs := StepDirs(prev.rs, StickDirs(s.rx, s.ry));
      var dp := DpadDirs(prev.dp, pad);
      StepDirsClean(prev.ls, StickDirs(s.lx, s.ly));
      StepDirsClean(prev.rs, StickDirs(s.rx, s.ry));
      (SourceState(frame, ls, rs, dp), SourcePrev(frame, ls.held, rs.held, dp.held), s)
  }

  /** SelectHeld / SelectDown / SelectUp for one kind of flag: a single
      source is itself, Sticks ORs the two sticks, Any ORs all three. */
  function Select(src: DirInputSource, ls: Dirs, rs: Dirs, dp: Dirs): (s: Dirs)
    ensures src == LStick ==> s == ls
    ensures src == RStick ==> s == rs
    ensures src == DPad ==> s == dp
    ensures src == SticksOnly ==> s == Or(ls, rs)
    ensures src == Any ==> s == Or(Or(ls, rs), dp)
  {
    match src
    case LStick => ls
    case RStick => rs
    case DPad => dp
    case SticksOnly => Or(ls, rs)
    case Any => Or(Or(ls, rs), dp)
  }

  function SelectHeld(s: SourceState, src: DirInputSource): Dirs { Select(src, s.ls.held, s.rs.held, s.dp.held) }
  function SelectDown(s: SourceState, src: DirInputSource): Dirs { Select(src, s.ls.down, s.rs.down, s.dp.down) }
  function SelectUp(s: SourceState, src: DirInputSource): Dirs { Select(src, s.ls.up, s.rs.up, s.dp.up) }

  /** Any is Sticks or the D-pad, for every kind of flag. */
  lemma AnyIsSticksOrDpad(s: SourceState)
    ensures SelectHeld(s, Any) == Or(SelectHeld(s, SticksOnly), SelectHeld(s, DPad))
    ensures SelectDown(s, Any) == Or(SelectDown(s, SticksOnly), SelectDown(s, DPad))
    ensures SelectUp(s, Any) == Or(SelectUp(s, SticksOnly), SelectUp(s, DPad))
  {
  }

  /** Both caches agree on Held: in a frame where each is recomputed from
      the same latches and D-pad, the per-source Any selection holds exactly
      the directions the combined cache holds. */
  lemma AnyHeldMatchesCombined(st: DirState, src: SourceState, prev: SourcePrev, sch: Schmitt, frame: int,
                               v: Sticks, pad: Dpad, h: Hysteresis)
    requires Latched(sch) && st.frame != frame && src.frame != frame
    ensures var (combined, sch2) := EnsureDirState(st, sch, frame, v, pad, h);
            var (bySource, _, _) := EnsureDirStateBySource(src, prev, sch2, frame, v, pad, h);
            SelectHeld(bySource, Any) == combined.edges.held
  {
    var s := EnsureSchmitt(sch, frame, v, h);
    var (combined, sch2) := EnsureDirState(st, sch, frame, v, pad, h);
    assert sch2 == s && s.frame == frame;
    assert EnsureSchmitt(sch2, frame, v, h) == s;
    var (bySource, _, _) := EnsureDirStateBySource(src, prev, sch2, frame, v, pad, h);
    assert bySource.ls.held == StickDirs(s.lx, s.ly);
    assert bySource.rs.held == StickDirs(s.rx, s.ry);
    assert bySource.dp.held == pad.pressed;
  }
}
