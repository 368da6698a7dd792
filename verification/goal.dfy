/** CatGoal: a goal area around a target.  Entering it shows an image,
    locks the cat's mover and can pause time; a transition key then loads
    the next scene, restoring time first when this component paused it. */
module Goal {
  import opened Geometry
  import opened Optional

  datatype RangeShape = Sphere | Box

  datatype GoalConfig = GoalConfig(
    shape: RangeShape, sphereRadius: real, boxHalfExtents: Vec3, boxUseTargetRotation: bool,
    hasImage: bool, sceneName: string, requireInRangeToTransition: bool, autoHideOnExit: bool,
    lockMoverOnEnter: bool, pauseTimeOnEnter: bool, unpauseOnTransition: bool, unpauseOnDisableOrDestroy: bool)

  /** m_WasInRange, m_DidPauseTime, the RawImage's enabled flag and the
      global Time.timeScale. */
  datatype GoalState = GoalState(wasInRange: bool, didPauseTime: bool, imageShown: bool, timeScale: real)

  /** One frame's effects: the enter/exit edges (with their events, SE and
      mover lock) and the scene load, if any. */
  datatype GoalEvents = GoalEvents(entered: bool, exited: bool, lockMover: bool, load: Option<string>)

  /** IsInRange.  `basePos`/`targetPos` are None when the transform is
      missing; `toLocal` is the target's InverseTransformPoint (used by the
      rotated box only). */
  function IsInRange(cfg: GoalConfig, basePos: Option<Vec3>, targetPos: Option<Vec3>, toLocal: Vec3 -> Vec3): (b: bool)
    ensures basePos.None? || targetPos.None? ==> !b
    ensures basePos.Some? && targetPos.Some? && cfg.shape == Sphere ==>
              (b <==> SqrMagnitude(Sub(basePos.value, targetPos.value)) <= Max(0.0, cfg.sphereRadius) * Max(0.0, cfg.sphereRadius))
    ensures basePos.Some? && targetPos.Some? && cfg.shape == Box && !cfg.boxUseTargetRotation ==>
              var d := Sub(basePos.value, targetPos.value);
              (b <==> Abs(d.x) <= Abs(cfg.boxHalfExtents.x) && Abs(d.y) <= Abs(cfg.boxHalfExtents.y)
                      && Abs(d.z) <= Abs(cfg.boxHalfExtents.z))
    ensures basePos.Some? && targetPos.Some? && cfg.shape == Box && cfg.boxUseTargetRotation ==>
              var l := toLocal(basePos.value);
              (b <==> Abs(l.x) <= Abs(cfg.boxHalfExtents.x) && Abs(l.y) <= Abs(cfg.boxHalfExtents.y)
                      && Abs(l.z) <= Abs(cfg.boxHalfExtents.z))
  {
    if basePos.None? || targetPos.None? then false
    else
      var p := basePos.value;
      if cfg.shape == Sphere then
        var r := Max(0.0, cfg.sphereRadius);
        SqrMagnitude(Sub(p, targetPos.value)) <= r * r
      else
        var half := Vec3(Abs(cfg.boxHalfExtents.x), Abs(cfg.boxHalfExtents.y), Abs(cfg.boxHalfExtents.z));
        var d := if cfg.boxUseTargetRotation then toLocal(p) else Sub(p, targetPos.value);
        Abs(d.x) <= half.x && Abs(d.y) <= half.y && Abs(d.z) <= half.z
  }

  /** A larger sphere radius keeps every in-range position in range. */
  lemma SphereRadiusMonotone(cfg: GoalConfig, r2: real, basePos: Vec3, targetPos: Vec3, toLocal: Vec3 -> Vec3)
    requires cfg.shape == Sphere && cfg.sphereRadius <= r2
    requires IsInRange(cfg, Some(basePos), Some(targetPos), toLocal)
    ensures IsInRange(cfg.(sphereRadius := r2), Some(basePos), Some(targetPos), toLocal)
  {
    var a := Max(0.0, cfg.sphereRadius);
    var b := Max(0.0, r2);
    SquareMonotone(a, b);
  }

  lemma SquareMonotone(a: real, b: real)
    requires 0.0 <= a <= b
    ensures a * a <= b * b
  {
    assert a * a <= a * b;
    assert a * b <= b * b;
  }

  /** The world-axis box is symmetric about the target: the base position
      and its point reflection through the target are in range together. */
  lemma AxisBoxSymmetric(cfg: GoalConfig, basePos: Vec3, targetPos: Vec3, toLocal: Vec3 -> Vec3)
    requires cfg.shape == Box && !cfg.boxUseTargetRotation
    ensures var mirrored := Sub(Scale(2.0, targetPos), basePos);
            IsInRange(cfg, Some(basePos), Some(targetPos), toLocal) <==> IsInRange(cfg, Some(mirrored), Some(targetPos), toLocal)
  {
  }

  /** Awake: the image starts hidden and nothing has happened yet. */
  function Awake(st: GoalState): (r: GoalState)
    ensures !r.wasInRange && !r.didPauseTime && !r.imageShown && r.timeScale == st.timeScale
  {
    GoalState(false, false, false, st.timeScale)
  }

  /** Update.  `inRange` is this frame's IsInRange and `pressed` a key-down
      of Return, KeypadEnter, Space or Escape. */
  function Update(st: GoalState, cfg: GoalConfig, inRange: bool, pressed: bool): (r: (GoalState, GoalEvents))
    ensures r.1.entered <==> inRange && !st.wasInRange
    ensures r.1.exited <==> !inRange && st.wasInRange
    ensures r.1.lockMover <==> r.1.entered && cfg.lockMoverOnEnter
    ensures r.0.wasInRange == inRange
    ensures r.1.load.Some? <==> pressed && (!cfg.requireInRangeToTransition || inRange) && |cfg.sceneName| > 0
    ensures r.1.load.Some? ==> r.1.load.value == cfg.sceneName
    ensures r.1.load.Some? && cfg.unpauseOnTransition ==> !r.0.didPauseTime
    ensures r.1.load.Some? && cfg.unpauseOnTransition && (st.didPauseTime || (r.1.entered && cfg.pauseTimeOnEnter))
            ==> r.0.timeScale == 1.0
    ensures r.1.load.None? && r.1.entered && cfg.pauseTimeOnEnter ==> r.0.timeScale == 0.0 && r.0.didPauseTime
    ensures !r.1.entered && r.1.load.None? ==> r.0.timeScale == st.timeScale && r.0.didPauseTime == st.didPauseTime
    ensures r.0.imageShown == if r.1.entered && cfg.hasImage then true
                              else if r.1.exited && cfg.autoHideOnExit && cfg.hasImage then false
                              else st.imageShown
    ensures (st.didPauseTime ==> st.timeScale == 0.0) ==> (r.0.didPauseTime ==> r.0.timeScale == 0.0)
  {
    var entered := inRange && !st.wasInRange;
    var exited := !entered && !inRange && st.wasInRange;
    var image := if entered && cfg.hasImage then true
                 else if exited && cfg.autoHideOnExit && cfg.hasImage then false
                 else st.imageShown;
    var paused := if entered && cfg.pauseTimeOnEnter then (0.0, true) else (st.timeScale, st.didPauseTime);
    var load := pressed && (!cfg.requireInRangeToTransition || inRange) && |cfg.sceneName| > 0;
    var restored := if load && paused.1 && cfg.unpauseOnTransition then (1.0, false) else paused;
    (GoalState(inRange, restored.1, image, restored.0),
     GoalEvents(entered, exited, entered && cfg.lockMoverOnEnter, if load then Some(cfg.sceneName) else None))
  }

  /** OnDisable and OnDestroy: time is restored only when this component
      paused it (and UnpauseOnDisableOrDestroy is set). */
  function OnDisable(st: GoalState, cfg: GoalConfig): (r: GoalState)
    ensures cfg.unpauseOnDisableOrDestroy && st.didPauseTime ==> r.timeScale == 1.0 && !r.didPauseTime
    ensures !(cfg.unpauseOnDisableOrDestroy && st.didPauseTime) ==> r == st
    ensures r.wasInRange == st.wasInRange && r.imageShown == st.imageShown
  {
    if cfg.unpauseOnDisableOrDestroy && st.didPauseTime then st.(timeScale := 1.0, didPauseTime := false) else st
  }
}
