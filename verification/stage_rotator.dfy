/** StageRotate: turns a transform about one axis toward ToAngle while two
    transforms are close, back toward FromAngle when they part (optionally),
    and can lock itself once ToAngle has been reached (OneShot).  The
    quaternion written by ApplyRotation is not modelled; the commanded angle
    is. */
module StageRotator {
  import opened Geometry
  import opened Angles

  datatype RotatorConfig = RotatorConfig(triggerDistance: real, fromAngle: real, toAngle: real,
                                         speedDegPerSec: real, autoReverseWhenFar: bool, oneShot: bool)

  datatype RotatorState = RotatorState(cmdAngle: real, inRangePrev: bool, completedOnce: bool)

  /** The SE requests of one frame, and whether ApplyRotation ran. */
  datatype RotatorEvents = RotatorEvents(seStart: bool, seReverse: bool, seComplete: bool, rotated: bool)

  const NoEvents := RotatorEvents(false, false, false, false)

  /** The tolerance of the ToAngle-reached test. */
  const ReachedEps: real := 0.01

  /** Awake: the commanded angle starts at FromAngle. */
  function Awake(cfg: RotatorConfig): (st: RotatorState)
    ensures st.cmdAngle == cfg.fromAngle && !st.inRangePrev && !st.completedOnce
  {
    RotatorState(cfg.fromAngle, false, false)
  }

  /** The angle Update steers toward. */
  function TargetAngle(cfg: RotatorConfig, cmdAngle: real, inRange: bool): (a: real)
    ensures inRange ==> a == cfg.toAngle
    ensures !inRange && cfg.autoReverseWhenFar ==> a == cfg.fromAngle
    ensures !inRange && !cfg.autoReverseWhenFar ==> a == cmdAngle
  {
    if inRange then cfg.toAngle else if cfg.autoReverseWhenFar then cfg.fromAngle else cmdAngle
  }

  /** A frame acts: the references are there, a one-shot rotator has not
      completed, and a one-shot rotator is in range. */
  predicate Acts(st: RotatorState, cfg: RotatorConfig, refsPresent: bool, distance: real)
  {
    refsPresent && !(cfg.oneShot && st.completedOnce) && !(cfg.oneShot && distance > cfg.triggerDistance)
  }

  /** ToAngle counts as reached: in range and within ReachedEps of it. */
  predicate Reached(cfg: RotatorConfig, cmdAngle: real, inRange: bool)
  {
    inRange && Abs(DeltaAngle(cmdAngle, cfg.toAngle)) <= ReachedEps
  }

  /** Update.  `refsPresent` says Base, Goal and the rotated transform are
      all assigned, `distance` is Vector3.Distance of Base and Goal, and
      `moveTowards` is Mathf.MoveTowardsAngle (a parameter). */
  function Update(st: RotatorState, cfg: RotatorConfig, refsPresent: bool, distance: real, dt: real,
                  moveTowards: (real, real, real) -> real): (r: (RotatorState, RotatorEvents))
    ensures !refsPresent || (cfg.oneShot && st.completedOnce) ==> r == (st, NoEvents)
    ensures cfg.oneShot && distance > cfg.triggerDistance ==> r == (st, NoEvents)
    ensures r.0.completedOnce ==> st.completedOnce || cfg.oneShot
    ensures r.1.seStart <==> refsPresent && !(cfg.oneShot && st.completedOnce)
                             && distance <= cfg.triggerDistance && !st.inRangePrev
    ensures r.1.seReverse ==> distance > cfg.triggerDistance && st.inRangePrev && cfg.autoReverseWhenFar
    ensures r.1.seComplete ==> !st.completedOnce && distance <= cfg.triggerDistance
                               && Abs(DeltaAngle(r.0.cmdAngle, cfg.toAngle)) <= ReachedEps
    ensures !Acts(st, cfg, refsPresent, distance) ==> r == (st, NoEvents)
    ensures Acts(st, cfg, refsPresent, distance) ==>
              var inRange := distance <= cfg.triggerDistance;
              var next := moveTowards(st.cmdAngle, TargetAngle(cfg, st.cmdAngle, inRange), cfg.speedDegPerSec * dt);
              && (r.1.rotated <==> next != st.cmdAngle)
              && (r.1.seReverse <==> !inRange && cfg.autoReverseWhenFar && st.inRangePrev)
              && (r.1.seComplete <==> Reached(cfg, next, inRange) && !st.completedOnce)
              && r.0.completedOnce == (if Reached(cfg, next, inRange) then cfg.oneShot || st.completedOnce
                                       else st.completedOnce)
    ensures r.0 != st || r.1 != NoEvents ==>
              var inRange := distance <= cfg.triggerDistance;
              r.0.inRangePrev == inRange
              && r.0.cmdAngle == moveTowards(st.cmdAngle, TargetAngle(cfg, st.cmdAngle, inRange), cfg.speedDegPerSec * dt)
  {
    if !refsPresent then (st, NoEvents)
    else
      var inRange := distance <= cfg.triggerDistance;
      if cfg.oneShot && st.completedOnce then (st, NoEvents)
      else if !inRange && cfg.oneShot then (st, NoEvents)
      else
        var target := TargetAngle(cfg, st.cmdAngle, inRange);
        var seStart := inRange && inRange != st.inRangePrev;
        var seReverse := !inRange && cfg.autoReverseWhenFar && inRange != st.inRangePrev;
        var next := moveTowards(st.cmdAngle, target, cfg.speedDegPerSec * dt);
        var rotated := next != st.cmdAngle;
        var cmd := if rotated then next else st.cmdAngle;
        var reached := inRange && Abs(DeltaAngle(cmd, cfg.toAngle)) <= ReachedEps;
        var seComplete := reached && !st.completedOnce;
        var completed := if reached then cfg.oneShot || st.completedOnce else st.completedOnce;
        (RotatorState(cmd, inRange, completed), RotatorEvents(seStart, seReverse, seComplete, rotated))
  }

  /** One frame's inputs. */
  datatype Frame = Frame(refsPresent: bool, distance: real, dt: real)

  function Run(st: RotatorState, cfg: RotatorConfig, frames: seq<Frame>, moveTowards: (real, real, real) -> real)
    : RotatorState
    decreases |frames|
  {
    if |frames| == 0 then st
    else
      var f := frames[0];
      Run(Update(st, cfg, f.refsPresent, f.distance, f.dt, moveTowards).0, cfg, frames[1..], moveTowards)
  }

  /** OneShot: once completion is reached no later frame changes anything. */
  lemma {:induction false} OneShotCompletionIsFinal(st: RotatorState, cfg: RotatorConfig, frames: seq<Frame>,
                                                    moveTowards: (real, real, real) -> real)
    requires cfg.oneShot && st.completedOnce
    ensures Run(st, cfg, frames, moveTowards) == st
    decreases |frames|
  {
    if |frames| > 0 {
      OneShotCompletionIsFinal(st, cfg, frames[1..], moveTowards);
    }
  }

  /** A one-shot rotator whose step lands on ToAngle in range completes
      and plays the completion SE, and from then on every frame is inert. */
  lemma OneShotCompletesOnReaching(st: RotatorState, cfg: RotatorConfig, distance: real, dt: real,
                                   moveTowards: (real, real, real) -> real, later: Frame)
    requires cfg.oneShot && !st.completedOnce && distance <= cfg.triggerDistance
    requires moveTowards(st.cmdAngle, cfg.toAngle, cfg.speedDegPerSec * dt) == cfg.toAngle
    ensures var r := Update(st, cfg, true, distance, dt, moveTowards);
            && r.0.completedOnce && r.1.seComplete && r.0.cmdAngle == cfg.toAngle
            && Update(r.0, cfg, later.refsPresent, later.distance, later.dt, moveTowards) == (r.0, NoEvents)
  {
    SelfDeltaIsZero(cfg.toAngle);
  }

  lemma SelfDeltaIsZero(a: real)
    ensures DeltaAngle(a, a) == 0.0
  {
  }

  /** Without OneShot, completedOnce never changes over any run. */
  lemma {:induction false} CompletionNeedsOneShot(st: RotatorState, cfg: RotatorConfig, frames: seq<Frame>,
                                                  moveTowards: (real, real, real) -> real)
    requires !cfg.oneShot
    ensures Run(st, cfg, frames, moveTowards).completedOnce == st.completedOnce
    decreases |frames|
  {
    if |frames| > 0 {
      var f := frames[0];
      var next := Update(st, cfg, f.refsPresent, f.distance, f.dt, moveTowards).0;
      CompletionNeedsOneShot(next, cfg, frames[1..], moveTowards);
    }
  }
}
