/** ObjectClampMover: key-driven warps of a transform, clamped per world
    axis, and two fixed-angle rotations that step through an angle list in
    ping-pong order.  The quaternion rebuild of the local rotation is not
    modelled; the commanded Euler angles it is built from are. */
module ClampMover {
  import opened Geometry
  import opened Angles
  import opened Optional
  import Directions

  // ---------------------------------------------------------------------
  // Clamping

  datatype AxisClamp = AxisClamp(enabled: bool, min: real, max: real)
  datatype Clamps = Clamps(x: AxisClamp, y: AxisClamp, z: AxisClamp)

  function ClampAxis(v: real, c: AxisClamp): real
  {
    if c.enabled then Clamp(v, c.min, c.max) else v
  }

  /** The axis value respects the clamp (a disabled clamp allows anything). */
  predicate Within(v: real, c: AxisClamp)
  {
    c.enabled ==> c.min <= v <= c.max
  }

  predicate Ordered(c: AxisClamp) { c.enabled ==> c.min <= c.max }
  predicate AllOrdered(cs: Clamps) { Ordered(cs.x) && Ordered(cs.y) && Ordered(cs.z) }

  /** ApplyClampWorld: every enabled axis is clamped into [Min, Max] (when
      Min <= Max), an axis already inside is kept, and disabled axes pass
      through. */
  function ApplyClampWorld(p: Vec3, cs: Clamps): (r: Vec3)
    ensures AllOrdered(cs) ==> Within(r.x, cs.x) && Within(r.y, cs.y) && Within(r.z, cs.z)
    ensures !cs.x.enabled || Within(p.x, cs.x) ==> r.x == p.x
    ensures !cs.y.enabled || Within(p.y, cs.y) ==> r.y == p.y
    ensures !cs.z.enabled || Within(p.z, cs.z) ==> r.z == p.z
  {
    Vec3(ClampAxis(p.x, cs.x), ClampAxis(p.y, cs.y), ClampAxis(p.z, cs.z))
  }

  /** Clamping twice is clamping once, once the bounds are ordered. */
  lemma ApplyClampWorldIdempotent(p: Vec3, cs: Clamps)
    requires AllOrdered(cs)
    ensures ApplyClampWorld(ApplyClampWorld(p, cs), cs) == ApplyClampWorld(p, cs)
  {
  }

  /** With Min > Max Mathf.Clamp is not idempotent: 0 clamped to [1, 0]
      gives 1, and 1 clamped again gives 0.  OnValidate is what rules this
      out. */
  lemma InvertedClampNotIdempotent()
    ensures var c := AxisClamp(true, 1.0, 0.0);
            ClampAxis(0.0, c) == 1.0 && ClampAxis(ClampAxis(0.0, c), c) == 0.0
  {
  }

  function OrderAxis(c: AxisClamp): AxisClamp
  {
    if c.enabled && c.min > c.max then AxisClamp(c.enabled, c.max, c.min) else c
  }

  /** OnValidate: an enabled clamp with Min > Max gets its bounds swapped. */
  function OnValidate(cs: Clamps): (r: Clamps)
    ensures AllOrdered(r)
    ensures r.x.enabled == cs.x.enabled && r.y.enabled == cs.y.enabled && r.z.enabled == cs.z.enabled
    ensures {r.x.min, r.x.max} == {cs.x.min, cs.x.max} && {r.y.min, r.y.max} == {cs.y.min, cs.y.max}
            && {r.z.min, r.z.max} == {cs.z.min, cs.z.max}
    ensures AllOrdered(cs) ==> r == cs
  {
    Clamps(OrderAxis(cs.x), OrderAxis(cs.y), OrderAxis(cs.z))
  }

  // ---------------------------------------------------------------------
  // Warps

  /** A MoveKey: whether its KeyCode is set, its world direction and the
      warp distance. */
  datatype MoveKey = MoveKey(keySet: bool, worldDirection: Vec3, step: real)

  /** The threshold below which a warp is not applied (1e-8). */
  const MinWarpSqr: real := 0.00000001

  /** The RStick direction whose down edge IsPadMoveDown reads for a world
      direction d: the larger of |d.x| and |d.z| picks the axis (x on a
      tie, y is never used) and the sign of that component the direction.
      Without pad mode +x, -x, +z, -z read Right, Left, Up, Down; in pad
      mode Up, Down, Left, Right.  None when no edge is read. */
  function PadMoveDir(d: Vec3, padMode: bool): (dir: Directions.Dir)
    ensures SqrMagnitude(d) <= 0.0 ==> dir == Directions.None
    ensures dir != Directions.None ==> if Abs(d.x) >= Abs(d.z) then d.x != 0.0 else d.z != 0.0
  {
    if SqrMagnitude(d) <= 0.0 then Directions.None
    else if Abs(d.x) >= Abs(d.z) then
      if d.x > 0.0 then (if padMode then Directions.Up else Directions.Right)
      else if d.x < 0.0 then (if padMode then Directions.Down else Directions.Left)
      else Directions.None
    else
      if d.z > 0.0 then (if padMode then Directions.Left else Directions.Up)
      else if d.z < 0.0 then (if padMode then Directions.Right else Directions.Down)
      else Directions.None
  }

  /** IsPadMoveDown: the down edge of the RStick direction PadMoveDir picks
      (rstickDown holds this frame's RStick down edges). */
  function IsPadMoveDown(mk: MoveKey, padMode: bool, rstickDown: Directions.Dirs): (r: bool)
    ensures r ==> PadMoveDir(mk.worldDirection, padMode) != Directions.None
    ensures r <==> Directions.Has(rstickDown, PadMoveDir(mk.worldDirection, padMode))
  {
    var dir := PadMoveDir(mk.worldDirection, padMode);
    if dir == Directions.Right then rstickDown.r
    else if dir == Directions.Left then rstickDown.l
    else if dir == Directions.Up then rstickDown.u
    else if dir == Directions.Down then rstickDown.d
    else false
  }

  /** Pad mode is the plain mapping turned a quarter to the left. */
  lemma PadModeTurnsLeft(d: Vec3)
    ensures PadMoveDir(d, true) == Directions.TurnLeft(PadMoveDir(d, false))
  {
  }

  /** The world axes map to the four stick directions, and the vertical
      axis reads no edge. */
  lemma PadMoveDirOfAxes(padMode: bool)
    ensures PadMoveDir(Vec3(1.0, 0.0, 0.0), padMode) == if padMode then Directions.Up else Directions.Right
    ensures PadMoveDir(Vec3(-1.0, 0.0, 0.0), padMode) == if padMode then Directions.Down else Directions.Left
    ensures PadMoveDir(Vec3(0.0, 0.0, 1.0), padMode) == if padMode then Directions.Left else Directions.Up
    ensures PadMoveDir(Vec3(0.0, 0.0, -1.0), padMode) == if padMode then Directions.Right else Directions.Down
    ensures PadMoveDir(Vec3(0.0, 1.0, 0.0), padMode) == Directions.None
  {
    PadMoveDirPlusX(padMode);
    PadMoveDirMinusX(padMode);
    PadMoveDirPlusZ(padMode);
    PadMoveDirMinusZ(padMode);
    PadMoveDirPlusY(padMode);
  }

  lemma PadMoveDirPlusX(padMode: bool)
    ensures PadMoveDir(Vec3(1.0, 0.0, 0.0), padMode) == if padMode then Directions.Up else Directions.Right
  {
    var d := Vec3(1.0, 0.0, 0.0);
    assert SqrMagnitude(d) == 1.0;
    assert Abs(d.x) == 1.0 && Abs(d.z) == 0.0;
  }

  lemma PadMoveDirMinusX(padMode: bool)
    ensures PadMoveDir(Vec3(-1.0, 0.0, 0.0), padMode) == if padMode then Directions.Down else Directions.Left
  {
    var d := Vec3(-1.0, 0.0, 0.0);
    assert SqrMagnitude(d) == 1.0;
    assert Abs(d.x) == 1.0 && Abs(d.z) == 0.0;
  }

  lemma PadMoveDirPlusZ(padMode: bool)
    ensures PadMoveDir(Vec3(0.0, 0.0, 1.0), padMode) == if padMode then Directions.Left else Directions.Up
  {
    var d := Vec3(0.0, 0.0, 1.0);
    assert SqrMagnitude(d) == 1.0;
    assert Abs(d.z) == 1.0 && Abs(d.x) == 0.0;
  }

  lemma PadMoveDirMinusZ(padMode: bool)
    ensures PadMoveDir(Vec3(0.0, 0.0, -1.0), padMode) == if padMode then Directions.Right else Directions.Down
  {
    var d := Vec3(0.0, 0.0, -1.0);
    assert SqrMagnitude(d) == 1.0;
    assert Abs(d.z) == 1.0 && Abs(d.x) == 0.0;
  }

  lemma PadMoveDirPlusY(padMode: bool)
    ensures PadMoveDir(Vec3(0.0, 1.0, 0.0), padMode) == Directions.None
  {
    var d := Vec3(0.0, 1.0, 0.0);
    assert SqrMagnitude(d) == 1.0;
    assert Abs(d.x) == 0.0 && Abs(d.z) == 0.0;
  }

  /** Reversing the direction reads the opposite edge. */
  lemma PadMoveDirOpposite(d: Vec3, padMode: bool)
    ensures PadMoveDir(Scale(-1.0, d), padMode) == Directions.Opposite(PadMoveDir(d, padMode))
  {
    var e := Scale(-1.0, d);
    assert e == Vec3(-d.x, -d.y, -d.z);
    assert SqrMagnitude(e) == SqrMagnitude(d);
    assert Abs(e.x) == Abs(d.x) && Abs(e.z) == Abs(d.z);
  }

  /** The clamped target of a warp: Step along the normalized direction;
      a direction too short to normalize moves nothing before the clamp. */
  function WarpTarget(mk: MoveKey, invLength: real, pos: Vec3, cs: Clamps): (t: Vec3)
    requires NormalizesWith(mk.worldDirection, invLength)
    ensures SqrMagnitude(mk.worldDirection) > NormalizeEpsilonSqr
            ==> t == ApplyClampWorld(Add(pos, Scale(mk.step * invLength, mk.worldDirection)), cs)
    ensures SqrMagnitude(mk.worldDirection) <= NormalizeEpsilonSqr ==> t == ApplyClampWorld(pos, cs)
  {
    var unit := Normalize(mk.worldDirection, invLength);
    var move := Scale(mk.step, unit);
    if SqrMagnitude(mk.worldDirection) > NormalizeEpsilonSqr then
      ScaleScale(mk.step, invLength, mk.worldDirection);
      assert move == Scale(mk.step * invLength, mk.worldDirection);
      ApplyClampWorld(Add(pos, move), cs)
    else
      assert Add(pos, move) == pos;
      ApplyClampWorld(Add(pos, move), cs)
  }

  /** HandleMoveKey.  keyDown is this frame's key-down of the key and
      rstickDown the RStick down edges; the key fires on either, the pad
      through IsPadMoveDown in pad mode.  invLength is 1 / |WorldDirection|.
      The position changes only when the clamped target is far enough
      away; `r.1` reports the warp (and its SE). */
  function HandleMoveKey(mk: MoveKey, keyDown: bool, rstickDown: Directions.Dirs, invLength: real, pos: Vec3, cs: Clamps)
    : (r: (Vec3, bool))
    requires NormalizesWith(mk.worldDirection, invLength)
    ensures var pressed := keyDown || Directions.Has(rstickDown, PadMoveDir(mk.worldDirection, true));
            !mk.keySet || !pressed || SqrMagnitude(mk.worldDirection) <= 0.0 ==> r == (pos, false)
    ensures !r.1 ==> r.0 == pos
    ensures r.1 ==> mk.keySet && (keyDown || Directions.Has(rstickDown, PadMoveDir(mk.worldDirection, true)))
                    && SqrMagnitude(mk.worldDirection) > 0.0 && SqrMagnitude(Sub(r.0, pos)) > MinWarpSqr
    ensures r.1 ==> r.0 == WarpTarget(mk, invLength, pos, cs)
    ensures r.1 && AllOrdered(cs) ==> Within(r.0.x, cs.x) && Within(r.0.y, cs.y) && Within(r.0.z, cs.z)
  {
    var pressed := keyDown || IsPadMoveDown(mk, true, rstickDown);
    if !mk.keySet || !pressed || SqrMagnitude(mk.worldDirection) <= 0.0 then (pos, false)
    else
      var newPos := WarpTarget(mk, invLength, pos, cs);
      if SqrMagnitude(Sub(newPos, pos)) > MinWarpSqr then (newPos, true) else (pos, false)
  }

  /** Without clamps, the warp target of a normalizable direction lies
      exactly Step along WorldDirection from the position (HandleMoveKey
      moves there when it warps): the displacement is Step / |WorldDirection|
      times the direction, of squared length Step^2. */
  lemma WarpIsStepAlongDirection(mk: MoveKey, invLength: real, pos: Vec3)
    requires NormalizesWith(mk.worldDirection, invLength)
    requires SqrMagnitude(mk.worldDirection) > NormalizeEpsilonSqr
    ensures var off := AxisClamp(false, 0.0, 0.0);
            var d := Sub(WarpTarget(mk, invLength, pos, Clamps(off, off, off)), pos);
            d == Scale(mk.step * invLength, mk.worldDirection) && SqrMagnitude(d) == mk.step * mk.step
  {
    var off := AxisClamp(false, 0.0, 0.0);
    var w := Scale(mk.step * invLength, mk.worldDirection);
    UnclampedIsIdentity(Add(pos, w), Clamps(off, off, off));
    AddSub(pos, w);
    ScaledUnitLength(mk.step, invLength, mk.worldDirection);
  }

  /** Scaling a vector by step times its inverse length gives length step. */
  lemma ScaledUnitLength(step: real, invLength: real, v: Vec3)
    requires IsInverseLength(v, invLength)
    ensures SqrMagnitude(Scale(step * invLength, v)) == step * step
  {
    SqrMagnitudeScale(step * invLength, v);
    UnitScaled(step, invLength, SqrMagnitude(v));
  }

  /** Clamps that are all disabled change nothing. */
  lemma UnclampedIsIdentity(p: Vec3, cs: Clamps)
    requires !cs.x.enabled && !cs.y.enabled && !cs.z.enabled
    ensures ApplyClampWorld(p, cs) == p
  {
  }

  lemma AddSub(p: Vec3, w: Vec3)
    ensures Sub(Add(p, w), p) == w
  {
  }

  lemma UnitScaled(s: real, i: real, q: real)
    requires i * i * q == 1.0
    ensures (s * i) * (s * i) * q == s * s
  {
    assert (s * i) * (s * i) * q == s * s * (i * i * q);
  }

  // ---------------------------------------------------------------------
  // Fixed rotations

  datatype Axis = X | Y | Z

  /** m_CmdAngleX/Y/Z. */
  datatype Commanded = Commanded(x: real, y: real, z: real)

  /** GetCommandedAngle reads the one axis; writing the read value back
      changes nothing (SetGetIdentity). */
  function GetCommandedAngle(c: Commanded, axis: Axis): (a: real)
    ensures axis == X ==> a == c.x
    ensures axis == Y ==> a == c.y
    ensures axis == Z ==> a == c.z
  {
    match axis
    case X => c.x
    case Y => c.y
    case Z => c.z
  }

  /** SetCommandedAngle writes the one axis and leaves the other two. */
  function SetCommandedAngle(c: Commanded, axis: Axis, a: real): (r: Commanded)
    ensures GetCommandedAngle(r, axis) == a
    ensures forall other :: other != axis ==> GetCommandedAngle(r, other) == GetCommandedAngle(c, other)
  {
    match axis
    case X => c.(x := a)
    case Y => c.(y := a)
    case Z => c.(z := a)
  }

  /** Writing back the angle just read leaves the commanded angles as they were. */
  lemma SetGetIdentity(c: Commanded, axis: Axis)
    ensures SetCommandedAngle(c, axis, GetCommandedAngle(c, axis)) == c
  {
  }

  /** A FixedRotation with its runtime fields _index, _direction and
      _appliedOnce; keySet says its KeyCode is not None, and a null Angles
      array is an empty list. */
  datatype FixedRotation = FixedRotation(keySet: bool, axis: Axis, angles: seq<real>,
                                         startFromFirst: bool, skipFirstIfSame: bool, firstPressEps: real,
                                         index: int, direction: int, appliedOnce: bool)
  {
    /** ResetRuntime. */
    function Reset(): (r: FixedRotation)
      ensures r.index == 0 && r.direction == 1 && !r.appliedOnce
      ensures r.keySet == keySet && r.axis == axis && r.angles == angles && r.startFromFirst == startFromFirst
              && r.skipFirstIfSame == skipFirstIfSame && r.firstPressEps == firstPressEps
    {
      this.(index := 0, direction := 1, appliedOnce := false)
    }
  }

  /** The first press skips Angles[0] when the axis already stands there. */
  predicate SkipsFirst(rot: FixedRotation, current: real)
  {
    rot.skipFirstIfSame && |rot.angles| >= 2 && Abs(DeltaAngle(rot.angles[0], current)) <= rot.firstPressEps
  }

  /** The index a press applies. */
  function IndexToApply(rot: FixedRotation, current: real): (i: int)
    requires |rot.angles| > 0
    ensures 0 <= i < |rot.angles|
    ensures !rot.appliedOnce && rot.startFromFirst ==> i == if SkipsFirst(rot, current) then 1 else 0
    ensures rot.appliedOnce || !rot.startFromFirst ==> i == ClampInt(rot.index, 0, |rot.angles| - 1)
  {
    var last := |rot.angles| - 1;
    if !rot.appliedOnce && rot.startFromFirst then
      if rot.skipFirstIfSame && last >= 1 && Abs(DeltaAngle(rot.angles[0], current)) <= rot.firstPressEps then 1 else 0
    else ClampInt(rot.index, 0, last)
  }

  /** The bookkeeping after applying index i: with two or more angles the
      direction turns to +1 at index 0 and to -1 at the last index, and the
      next index is one step that way; a single angle pins index 0 and
      direction +1. */
  function Advance(rot: FixedRotation, i: int): (r: FixedRotation)
    requires 0 <= i < |rot.angles|
    ensures r.appliedOnce
    ensures r == rot.(index := r.index, direction := r.direction, appliedOnce := true)
    ensures |rot.angles| >= 2 ==> 0 <= r.index <= |rot.angles| - 1
    ensures |rot.angles| >= 2 && i == 0 ==> r.direction == 1
    ensures |rot.angles| >= 2 && i == |rot.angles| - 1 ==> r.direction == -1
    ensures |rot.angles| == 1 ==> r.index == 0 && r.direction == 1
  {
    var last := |rot.angles| - 1;
    if last >= 1 then
      var dir := if i <= 0 then 1 else if i >= last then -1 else rot.direction;
      rot.(direction := dir, index := ClampInt(i + dir, 0, last), appliedOnce := true)
    else
      rot.(index := 0, direction := 1, appliedOnce := true)
  }

  /** HandleFixedRotation.  `pressed` is the key or pad button down edge.
      Returns the rotation, the commanded angles, and the index applied
      (None when the press is ignored). */
  lemma RepeatSameAngle(t: real)
    ensures SameAngle(Repeat(t, 360.0), t)
  {
    WholeNeg((t - Repeat(t, 360.0)) / 360.0);
    assert -((t - Repeat(t, 360.0)) / 360.0) == (Repeat(t, 360.0) - t) / 360.0;
  }

  function HandleFixedRotation(rot: Option<FixedRotation>, cmd: Commanded, pressed: bool)
    : (r: (Option<FixedRotation>, Commanded, Option<int>))
    ensures r.2.None? <==> rot.None? || !rot.value.keySet || !pressed || |rot.value.angles| == 0
    ensures r.2.None? ==> r.0 == rot && r.1 == cmd
    ensures r.2.Some? ==>
              var ro := rot.value;
              var i := r.2.value;
              i == IndexToApply(ro, GetCommandedAngle(cmd, ro.axis))
              && r.0 == Some(Advance(ro, i))
              && r.1 == SetCommandedAngle(cmd, ro.axis, Repeat(ro.angles[i], 360.0))
              && 0.0 <= GetCommandedAngle(r.1, ro.axis) < 360.0
              && SameAngle(GetCommandedAngle(r.1, ro.axis), ro.angles[i])
  {
    if rot.None? || !rot.value.keySet || !pressed || |rot.value.angles| == 0 then (rot, cmd, None)
    else
      var ro := rot.value;
      var i := IndexToApply(ro, GetCommandedAngle(cmd, ro.axis));
      var a := Repeat(ro.angles[i], 360.0);
      RepeatSameAngle(ro.angles[i]);
      (Some(Advance(ro, i)), SetCommandedAngle(cmd, ro.axis, a), Some(i))
  }

  /** The closed form of a ping-pong walk over indices 0..last. */
  function PingPong(k: nat, last: nat): (i: nat)
    requires last >= 1
    ensures i <= last
  {
    var p := k % (2 * last);
    if p <= last then p else 2 * last - p
  }

  /** The direction of the walk's step from k to k + 1. */
  function StepDir(k: nat, last: nat): int
    requires last >= 1
  {
    if k % (2 * last) < last then 1 else -1
  }

  lemma ModNext(k: nat, m: nat)
    requires m > 0
    ensures (k + 1) % m == if k % m == m - 1 then 0 else k % m + 1
  {
    var q := k / m;
    var r := k % m;
    assert k == q * m + r;
    if r == m - 1 {
      assert k + 1 == (q + 1) * m;
      ModOfMultiple(q + 1, m);
    } else {
      ModUnique(k + 1, q, r + 1, m);
    }
  }

  lemma ModOfMultiple(q: int, m: nat)
    requires m > 0 && q >= 0
    ensures (q * m) % m == 0
  {
    ModUnique(q * m, q, 0, m);
  }

  lemma ModUnique(x: int, q: int, r: int, m: nat)
    requires m > 0 && 0 <= r < m && x == q * m + r
    ensures x % m == r
  {
    var q2 := x / m;
    var r2 := x % m;
    assert x == q2 * m + r2;
    var d := q - q2;
    assert d * m == r2 - r by {
      assert q * m - q2 * m == (q - q2) * m;
    }
    if d >= 1 {
      MulAtLeast(d, m);
    } else if d <= -1 {
      MulAtLeast(-d, m);
    }
  }

  lemma MulAtLeast(d: int, m: int)
    requires d >= 1 && m > 0
    ensures d * m >= m
  {
    assert d * m == (d - 1) * m + m;
    assert (d - 1) * m >= 0;
  }

  /** One step of the walk: from PingPong(k), turning at the ends and
      otherwise keeping the previous step's direction, gives StepDir(k) and
      lands on PingPong(k + 1). */
  lemma PingPongStep(k: nat, last: nat, prevDir: int)
    requires last >= 1
    requires k >= 1 ==> prevDir == StepDir(k - 1, last)
    requires k == 0 ==> prevDir == 1
    ensures var a := PingPong(k, last);
            var d := if a <= 0 then 1 else if a >= last then -1 else prevDir;
            d == StepDir(k, last) && ClampInt(a + d, 0, last) == PingPong(k + 1, last)
  {
    ModNext(k, 2 * last);
    if k >= 1 {
      ModNext(k - 1, 2 * last);
    }
  }

  /** The applied indices of n presses in a row. */
  function PressRun(rot: FixedRotation, cmd: Commanded, n: nat): (s: seq<int>)
    requires rot.keySet && |rot.angles| > 0
    ensures |s| == n
    decreases n
  {
    if n == 0 then []
    else
      var r := HandleFixedRotation(Some(rot), cmd, true);
      [r.2.value] + PressRun(r.0.value, r.1, n - 1)
  }

  /** A run of n presses is the first press followed by a run of n - 1. */
  lemma PressRunCons(rot: FixedRotation, cmd: Commanded, n: nat)
    requires rot.keySet && |rot.angles| > 0 && n > 0
    ensures var r := HandleFixedRotation(Some(rot), cmd, true);
            PressRun(rot, cmd, n)[0] == r.2.value
            && forall k :: 1 <= k < n ==> PressRun(rot, cmd, n)[k] == PressRun(r.0.value, r.1, n - 1)[k - 1]
  {
    var r := HandleFixedRotation(Some(rot), cmd, true);
    assert PressRun(rot, cmd, n) == [r.2.value] + PressRun(r.0.value, r.1, n - 1);
  }

  lemma {:induction false} PressRunFrom(rot: FixedRotation, cmd: Commanded, n: nat, m: nat)
    requires rot.keySet && |rot.angles| >= 2 && rot.appliedOnce && m >= 1
    requires rot.index == PingPong(m, |rot.angles| - 1) && rot.direction == StepDir(m - 1, |rot.angles| - 1)
    ensures forall k :: 0 <= k < n ==> PressRun(rot, cmd, n)[k] == PingPong(m + k, |rot.angles| - 1)
    decreases n
  {
    if n > 0 {
      var last := |rot.angles| - 1;
      var r := HandleFixedRotation(Some(rot), cmd, true);
      assert r.2.value == PingPong(m, last);
      PingPongStep(m, last, rot.direction);
      PressRunFrom(r.0.value, r.1, n - 1, m + 1);
      PressRunCons(rot, cmd, n);
    }
  }

  /** The first press from a reset rotation applies index s (1 when it
      skips Angles[0], else 0) and leaves the walk at PingPong(s + 1). */
  lemma PingPongFirstPress(rot: FixedRotation, cmd: Commanded, s: int)
    requires rot.keySet && |rot.angles| >= 2 && rot.startFromFirst
    requires rot == rot.Reset()
    requires s == if SkipsFirst(rot, GetCommandedAngle(cmd, rot.axis)) then 1 else 0
    ensures var r := HandleFixedRotation(Some(rot), cmd, true);
            r.2.value == s && r.0.value.keySet && |r.0.value.angles| == |rot.angles| && r.0.value.appliedOnce
            && r.0.value.index == PingPong(s + 1, |rot.angles| - 1)
            && r.0.value.direction == StepDir(s, |rot.angles| - 1)
    ensures PingPong(s, |rot.angles| - 1) == s
  {
    var last := |rot.angles| - 1;
    var r := HandleFixedRotation(Some(rot), cmd, true);
    assert r.2.value == s;
    ModUnique(0, 0, 0, 2 * last);
    ModUnique(s, 0, s, 2 * last);
    assert PingPong(s, last) == s;
    assert s >= 1 ==> StepDir(s - 1, last) == 1;
    PingPongStep(s, last, 1);
    assert r.0.value == Advance(rot, s);
  }

  /** Ping-pong: from a reset rotation, consecutive presses apply the
      indices 0, 1, .., last, last - 1, .., 0, 1, .. (so angles {0, 45, 90}
      give 0, 45, 90, 45, 0, ..), shifted by one when the first press skips
      an Angles[0] the axis already stands at. */
  lemma PingPongRun(rot: FixedRotation, cmd: Commanded, n: nat)
    requires rot.keySet && |rot.angles| >= 2 && rot.startFromFirst
    requires rot == rot.Reset()
    ensures var s := if SkipsFirst(rot, GetCommandedAngle(cmd, rot.axis)) then 1 else 0;
            forall k :: 0 <= k < n ==> PressRun(rot, cmd, n)[k] == PingPong(k + s, |rot.angles| - 1)
  {
    if n > 0 {
      var last := |rot.angles| - 1;
      var s := if SkipsFirst(rot, GetCommandedAngle(cmd, rot.axis)) then 1 else 0;
      var r := HandleFixedRotation(Some(rot), cmd, true);
      PingPongFirstPress(rot, cmd, s);
      var next := r.0.value;
      PressRunFrom(next, r.1, n - 1, s + 1);
      PressRunCons(rot, cmd, n);
    }
  }

  // ---------------------------------------------------------------------
  // Update

  datatype MoverState = MoverState(position: Vec3, cmd: Commanded,
                                   rotationA: Option<FixedRotation>, rotationB: Option<FixedRotation>)

  datatype MoverConfig = MoverConfig(right: MoveKey, left: MoveKey, up: MoveKey, down: MoveKey, clamps: Clamps)

  /** This frame's inputs: the key-down and the inverse direction length
      per move key (right, left, up, down), the RStick down edges, and the
      two rotation presses. */
  datatype MoverInput = MoverInput(keyDown: seq<bool>, invLengths: seq<real>, rstickDown: Directions.Dirs,
                                   rotADown: bool, rotBDown: bool)

  /** Each move key's inverse length is the one Normalize divides by. */
  predicate InputNormalizes(cfg: MoverConfig, input: MoverInput)
    requires |input.invLengths| == 4
  {
    && NormalizesWith(cfg.right.worldDirection, input.invLengths[0])
    && NormalizesWith(cfg.left.worldDirection, input.invLengths[1])
    && NormalizesWith(cfg.up.worldDirection, input.invLengths[2])
    && NormalizesWith(cfg.down.worldDirection, input.invLengths[3])
  }

  /** Move key k of the configuration: right, left, up, down. */
  function KeyAt(cfg: MoverConfig, k: nat): MoveKey
    requires k < 4
  {
    if k == 0 then cfg.right else if k == 1 then cfg.left else if k == 2 then cfg.up else cfg.down
  }

  /** Move key k can warp this frame: it is set, its key or its RStick
      direction went down, and its direction is not zero. */
  predicate Fires(cfg: MoverConfig, input: MoverInput, k: nat)
    requires k < 4 && |input.keyDown| == 4
  {
    var mk := KeyAt(cfg, k);
    mk.keySet && (input.keyDown[k] || Directions.Has(input.rstickDown, PadMoveDir(mk.worldDirection, true)))
    && SqrMagnitude(mk.worldDirection) > 0.0
  }

  /** Move key k is the only one that can warp this frame. */
  predicate OnlyFires(cfg: MoverConfig, input: MoverInput, k: nat)
    requires k < 4 && |input.keyDown| == 4
  {
    Fires(cfg, input, k) && forall j :: 0 <= j < 4 && j != k ==> !Fires(cfg, input, j)
  }

  /** Update: while the locker reports locked nothing moves or turns;
      otherwise the four warps run in order, then rotation A, then B. */
  function Update(st: MoverState, cfg: MoverConfig, locked: bool, input: MoverInput): (r: MoverState)
    requires |input.keyDown| == 4 && |input.invLengths| == 4 && InputNormalizes(cfg, input)
    ensures locked ==> r == st
    ensures !locked ==> r.rotationA == HandleFixedRotation(st.rotationA, st.cmd, input.rotADown).0
    ensures !locked ==> r.rotationB == HandleFixedRotation(st.rotationB,
                                         HandleFixedRotation(st.rotationA, st.cmd, input.rotADown).1, input.rotBDown).0
    ensures !locked ==> r.cmd == HandleFixedRotation(st.rotationB,
                                   HandleFixedRotation(st.rotationA, st.cmd, input.rotADown).1, input.rotBDown).1
    ensures !locked && AllOrdered(cfg.clamps)
            && Within(st.position.x, cfg.clamps.x) && Within(st.position.y, cfg.clamps.y) && Within(st.position.z, cfg.clamps.z)
            ==> Within(r.position.x, cfg.clamps.x) && Within(r.position.y, cfg.clamps.y) && Within(r.position.z, cfg.clamps.z)
  {
    if locked then st
    else
      var p1 := HandleMoveKey(cfg.right, input.keyDown[0], input.rstickDown, input.invLengths[0], st.position,
                              cfg.clamps).0;
      var p2 := HandleMoveKey(cfg.left, input.keyDown[1], input.rstickDown, input.invLengths[1], p1,
                              cfg.clamps).0;
      var p3 := HandleMoveKey(cfg.up, input.keyDown[2], input.rstickDown, input.invLengths[2], p2,
                              cfg.clamps).0;
      var p4 := HandleMoveKey(cfg.down, input.keyDown[3], input.rstickDown, input.invLengths[3], p3,
                              cfg.clamps).0;
      var a := HandleFixedRotation(st.rotationA, st.cmd, input.rotADown);
      var b := HandleFixedRotation(st.rotationB, a.1, input.rotBDown);
      MoverState(p4, b.1, a.0, b.0)
  }

  /** One move key's step: a key that cannot fire leaves the position, and
      any step either leaves it or warps to the key's target. */
  lemma MoveKeyStep(cfg: MoverConfig, input: MoverInput, k: nat, pos: Vec3)
    requires k < 4 && |input.keyDown| == 4 && |input.invLengths| == 4
    requires NormalizesWith(KeyAt(cfg, k).worldDirection, input.invLengths[k])
    ensures var p := HandleMoveKey(KeyAt(cfg, k), input.keyDown[k], input.rstickDown, input.invLengths[k], pos, cfg.clamps).0;
            && (!Fires(cfg, input, k) ==> p == pos)
            && (p == pos || p == WarpTarget(KeyAt(cfg, k), input.invLengths[k], pos, cfg.clamps))
  {
  }

  /** The position after the first j move keys of Update. */
  function UpdatePrefix(st: MoverState, cfg: MoverConfig, input: MoverInput, j: nat): Vec3
    requires j <= 4 && |input.keyDown| == 4 && |input.invLengths| == 4 && InputNormalizes(cfg, input)
  {
    if j == 0 then st.position
    else
      HandleMoveKey(KeyAt(cfg, j - 1), input.keyDown[j - 1], input.rstickDown, input.invLengths[j - 1],
                    UpdatePrefix(st, cfg, input, j - 1), cfg.clamps).0
  }

  /** Update's position is the position after all four move keys. */
  lemma UpdatePositions(st: MoverState, cfg: MoverConfig, input: MoverInput)
    requires |input.keyDown| == 4 && |input.invLengths| == 4 && InputNormalizes(cfg, input)
    ensures Update(st, cfg, false, input).position == UpdatePrefix(st, cfg, input, 4)
  {
    var ks, ls, cs := input.keyDown, input.invLengths, cfg.clamps;
    var p1 := HandleMoveKey(cfg.right, ks[0], input.rstickDown, ls[0], st.position, cs).0;
    var p2 := HandleMoveKey(cfg.left, ks[1], input.rstickDown, ls[1], p1, cs).0;
    var p3 := HandleMoveKey(cfg.up, ks[2], input.rstickDown, ls[2], p2, cs).0;
    assert UpdatePrefix(st, cfg, input, 1) == p1;
    assert UpdatePrefix(st, cfg, input, 2) == p2;
    assert UpdatePrefix(st, cfg, input, 3) == p3;
  }

  /** Keys that cannot fire keep the position through the prefix. */
  lemma {:induction false} PrefixStays(st: MoverState, cfg: MoverConfig, input: MoverInput, j: nat)
    requires j <= 4 && |input.keyDown| == 4 && |input.invLengths| == 4 && InputNormalizes(cfg, input)
    requires forall i :: 0 <= i < j ==> !Fires(cfg, input, i)
    ensures UpdatePrefix(st, cfg, input, j) == st.position
  {
    if j > 0 {
      PrefixStays(st, cfg, input, j - 1);
      MoveKeyStep(cfg, input, j - 1, st.position);
    }
  }

  /** With only key k able to fire, the prefix is the start before key k
      and key k's result from the start after it. */
  lemma {:induction false} PrefixOnlyKey(st: MoverState, cfg: MoverConfig, input: MoverInput, k: nat, j: nat)
    requires j <= 4 && |input.keyDown| == 4 && |input.invLengths| == 4 && InputNormalizes(cfg, input)
    requires k < 4 && OnlyFires(cfg, input, k)
    ensures UpdatePrefix(st, cfg, input, j)
            == if j <= k then st.position
               else HandleMoveKey(KeyAt(cfg, k), input.keyDown[k], input.rstickDown, input.invLengths[k],
                                  st.position, cfg.clamps).0
  {
    if j > 0 {
      PrefixOnlyKey(st, cfg, input, k, j - 1);
      var p := UpdatePrefix(st, cfg, input, j - 1);
      MoveKeyStep(cfg, input, j - 1, p);
      if j - 1 != k {
        assert !Fires(cfg, input, j - 1);
      }
    }
  }

  /** A frame in which no move key can fire leaves the position alone. */
  lemma UpdateWithoutFiringStays(st: MoverState, cfg: MoverConfig, input: MoverInput)
    requires |input.keyDown| == 4 && |input.invLengths| == 4 && InputNormalizes(cfg, input)
    requires forall k :: 0 <= k < 4 ==> !Fires(cfg, input, k)
    ensures Update(st, cfg, false, input).position == st.position
  {
    UpdatePositions(st, cfg, input);
    PrefixStays(st, cfg, input, 4);
  }

  /** A frame in which only move key k can fire leaves the position or warps
      it to key k's target from the starting position. */
  lemma UpdateOnlyKeyWarps(st: MoverState, cfg: MoverConfig, input: MoverInput, k: nat)
    requires |input.keyDown| == 4 && |input.invLengths| == 4 && InputNormalizes(cfg, input)
    requires k < 4 && OnlyFires(cfg, input, k)
    ensures var p := Update(st, cfg, false, input).position;
            p == st.position || p == WarpTarget(KeyAt(cfg, k), input.invLengths[k], st.position, cfg.clamps)
  {
    UpdatePositions(st, cfg, input);
    PrefixOnlyKey(st, cfg, input, k, 4);
    MoveKeyStep(cfg, input, k, st.position);
  }
}
