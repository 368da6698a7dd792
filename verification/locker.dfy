/** ObjectLocker: a latch that turns on, once and for good, the first frame
    the watched transform matches a target position and/or rotation. */
module Locker {
  import opened Geometry
  import opened Angles

  datatype LockerConfig = LockerConfig(
    positionTarget: Vec3, usePosX: bool, usePosY: bool, usePosZ: bool,
    eulerTarget: Vec3, useRotX: bool, useRotY: bool, useRotZ: bool,
    positionEpsilon: real, angleEpsilon: real)

  /** Each Euler component brought into (-180, 180], naming the same angle. */
  function ToSignedEuler(e: Vec3): (r: Vec3)
    ensures -180.0 < r.x <= 180.0 && -180.0 < r.y <= 180.0 && -180.0 < r.z <= 180.0
    ensures SameAngle(e.x, r.x) && SameAngle(e.y, r.y) && SameAngle(e.z, r.z)
  {
    Vec3(ToSigned180(e.x), ToSigned180(e.y), ToSigned180(e.z))
  }

  /** Awake (and OnValidate): the Euler target is brought into (-180, 180]
      without changing the directions it names. */
  function Awake(cfg: LockerConfig): (c: LockerConfig)
    ensures -180.0 < c.eulerTarget.x <= 180.0
    ensures -180.0 < c.eulerTarget.y <= 180.0 && -180.0 < c.eulerTarget.z <= 180.0
    ensures SameAngle(cfg.eulerTarget.x, c.eulerTarget.x) && SameAngle(cfg.eulerTarget.y, c.eulerTarget.y)
            && SameAngle(cfg.eulerTarget.z, c.eulerTarget.z)
    ensures c == cfg.(eulerTarget := c.eulerTarget)
  {
    cfg.(eulerTarget := ToSignedEuler(cfg.eulerTarget))
  }

  /** Per-axis rotation test: the current angle made signed, then compared
      to the target with DeltaAngle. */
  function AxisClose(now: real, target: real, eps: real): (b: bool)
    ensures b <==> Abs(DeltaAngle(now, target)) <= eps
  {
    DeltaAngleOfSigned(now, target);
    Abs(DeltaAngle(ToSigned180(now), target)) <= eps
  }

  predicate AnyCondition(cfg: LockerConfig)
  {
    cfg.usePosX || cfg.usePosY || cfg.usePosZ || cfg.useRotX || cfg.useRotY || cfg.useRotZ
  }

  /** EvaluateNow: false when no flag is on; otherwise every enabled
      position axis is within PositionEpsilon and the rotation test holds.
      With all three rotation flags on the source compares orientations by
      Quaternion.Angle, which is the parameter `quaternionAngle`; with some
      but not all on, each enabled axis is compared by DeltaAngle (the
      signed conversion of the current angle makes no difference). */
  function EvaluateNow(cfg: LockerConfig, position: Vec3, euler: Vec3, quaternionAngle: real): (b: bool)
    ensures !AnyCondition(cfg) ==> !b
    ensures AnyCondition(cfg) ==>
              (b <==> (cfg.usePosX ==> Abs(position.x - cfg.positionTarget.x) <= cfg.positionEpsilon)
                      && (cfg.usePosY ==> Abs(position.y - cfg.positionTarget.y) <= cfg.positionEpsilon)
                      && (cfg.usePosZ ==> Abs(position.z - cfg.positionTarget.z) <= cfg.positionEpsilon)
                      && (cfg.useRotX && cfg.useRotY && cfg.useRotZ ==> quaternionAngle <= cfg.angleEpsilon)
                      && (!(cfg.useRotX && cfg.useRotY && cfg.useRotZ) ==>
                            (cfg.useRotX ==> Abs(DeltaAngle(euler.x, cfg.eulerTarget.x)) <= cfg.angleEpsilon)
                            && (cfg.useRotY ==> Abs(DeltaAngle(euler.y, cfg.eulerTarget.y)) <= cfg.angleEpsilon)
                            && (cfg.useRotZ ==> Abs(DeltaAngle(euler.z, cfg.eulerTarget.z)) <= cfg.angleEpsilon)))
  {
    var okX := !cfg.usePosX || Abs(position.x - cfg.positionTarget.x) <= cfg.positionEpsilon;
    var okY := !cfg.usePosY || Abs(position.y - cfg.positionTarget.y) <= cfg.positionEpsilon;
    var okZ := !cfg.usePosZ || Abs(position.z - cfg.positionTarget.z) <= cfg.positionEpsilon;
    var useAnyRot := cfg.useRotX || cfg.useRotY || cfg.useRotZ;
    var okRot :=
      if !useAnyRot then true
      else if cfg.useRotX && cfg.useRotY && cfg.useRotZ then quaternionAngle <= cfg.angleEpsilon
      else (!cfg.useRotX || AxisClose(euler.x, cfg.eulerTarget.x, cfg.angleEpsilon))
           && (!cfg.useRotY || AxisClose(euler.y, cfg.eulerTarget.y, cfg.angleEpsilon))
           && (!cfg.useRotZ || AxisClose(euler.z, cfg.eulerTarget.z, cfg.angleEpsilon));
    AnyCondition(cfg) && okX && okY && okZ && okRot
  }

  /** One frame's observation of the target transform. */
  datatype Frame = Frame(position: Vec3, euler: Vec3, quaternionAngle: real)

  /** Update: a matched locker does nothing; otherwise a match sets
      IsMatched and fires OnMatchedChanged(true) with the lock SE. */
  function Update(isMatched: bool, cfg: LockerConfig, f: Frame): (r: (bool, bool))
    ensures r.1 <==> !isMatched && EvaluateNow(cfg, f.position, f.euler, f.quaternionAngle)
    ensures r.0 <==> isMatched || r.1
  {
    if isMatched then (true, false)
    else
      var m := EvaluateNow(cfg, f.position, f.euler, f.quaternionAngle);
      (m, m)
  }

  /** IsMatched after a run of frames, and how many times the event fired. */
  function Run(isMatched: bool, cfg: LockerConfig, frames: seq<Frame>): (r: (bool, nat))
    decreases |frames|
  {
    if |frames| == 0 then (isMatched, 0)
    else
      var (m, fired) := Update(isMatched, cfg, frames[0]);
      var (m2, n) := Run(m, cfg, frames[1..]);
      (m2, n + if fired then 1 else 0)
  }

  /** The latch: OnMatchedChanged fires at most once over any run, never
      once matched, and IsMatched (GetLocked) is true at the end exactly
      when it was true at the start or the event fired. */
  lemma {:induction false} RunLatches(isMatched: bool, cfg: LockerConfig, frames: seq<Frame>)
    ensures Run(isMatched, cfg, frames).1 <= 1
    ensures isMatched ==> Run(isMatched, cfg, frames) == (true, 0)
    ensures Run(isMatched, cfg, frames).0 <==> isMatched || Run(isMatched, cfg, frames).1 == 1
    decreases |frames|
  {
    if |frames| > 0 {
      var (m, fired) := Update(isMatched, cfg, frames[0]);
      RunLatches(m, cfg, frames[1..]);
    }
  }
}
