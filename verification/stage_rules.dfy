/** CollisionManager2: rules that match when the mirror sits at one of a
    list of STAGE_STATE poses (within tolerances) and then switch groups
    off; every other object returns to its cached default. */
module StageRules {
  import opened Geometry
  import opened Angles
  import opened Optional
  import opened Toggles
  import opened StageTable

  datatype StageCondition = StageCondition(stage: StageId, positionEpsilon: real, angleEpsilonDeg: real)

  /** The mirror's world position and raw Euler angles. */
  datatype Pose = Pose(position: Vec3, euler: Vec3)

  /** One axis of the rotation test: both angles made signed first. */
  function AngleClose(now: real, target: real, eps: real): (b: bool)
    ensures b <==> Abs(DeltaAngle(now, target)) <= eps
  {
    SignedDeltaSame(now, target);
    Abs(DeltaAngle(DeltaAngle(0.0, now), DeltaAngle(0.0, target))) <= eps
  }

  /** Making both angles signed first does not change their DeltaAngle. */
  lemma SignedDeltaSame(a: real, b: real)
    ensures DeltaAngle(DeltaAngle(0.0, a), DeltaAngle(0.0, b)) == DeltaAngle(a, b)
  {
    assert (a - 0.0) == a && (b - 0.0) == b;
    SameAngleSym(a, DeltaAngle(0.0, a));
    SameAngleSym(b, DeltaAngle(0.0, b));
    DeltaAngleInvariant(DeltaAngle(0.0, a), DeltaAngle(0.0, b), a, b);
  }

  /** IsStageMatch: an unknown stage code never matches; otherwise every
      position axis must be within PositionEpsilon and every rotation axis
      within AngleEpsilonDeg. */
  function IsStageMatch(pose: Pose, cond: StageCondition): (b: bool)
    ensures !IsNamedStage(cond.stage) ==> !b
    ensures IsNamedStage(cond.stage) ==>
              var t := TryGet(cond.stage);
              (b <==> Abs(pose.position.x - t.pos.x) <= cond.positionEpsilon
                      && Abs(pose.position.y - t.pos.y) <= cond.positionEpsilon
                      && Abs(pose.position.z - t.pos.z) <= cond.positionEpsilon
                      && Abs(DeltaAngle(pose.euler.x, t.eulerDeg.x)) <= cond.angleEpsilonDeg
                      && Abs(DeltaAngle(pose.euler.y, t.eulerDeg.y)) <= cond.angleEpsilonDeg
                      && Abs(DeltaAngle(pose.euler.z, t.eulerDeg.z)) <= cond.angleEpsilonDeg)
  {
    var t := TryGet(cond.stage);
    if !t.found then false
    else
      var posOK := Abs(pose.position.x - t.pos.x) <= cond.positionEpsilon
                   && Abs(pose.position.y - t.pos.y) <= cond.positionEpsilon
                   && Abs(pose.position.z - t.pos.z) <= cond.positionEpsilon;
      var rotOK := AngleClose(pose.euler.x, t.eulerDeg.x, cond.angleEpsilonDeg)
                   && AngleClose(pose.euler.y, t.eulerDeg.y, cond.angleEpsilonDeg)
                   && AngleClose(pose.euler.z, t.eulerDeg.z, cond.angleEpsilonDeg);
      posOK && rotOK
  }

  /** A mirror exactly at a stage's pose, or turned by whole turns from it,
      matches that stage for any non-negative tolerances. */
  lemma ExactPoseMatches(cond: StageCondition, euler: Vec3)
    requires IsNamedStage(cond.stage) && cond.positionEpsilon >= 0.0 && cond.angleEpsilonDeg >= 0.0
    requires var t := TryGet(cond.stage).eulerDeg;
             SameAngle(euler.x, t.x) && SameAngle(euler.y, t.y) && SameAngle(euler.z, t.z)
    ensures IsStageMatch(Pose(TryGet(cond.stage).pos, euler), cond)
  {
    var t := TryGet(cond.stage).eulerDeg;
    DeltaAngleZeroIff(euler.x, t.x);
    DeltaAngleZeroIff(euler.y, t.y);
    DeltaAngleZeroIff(euler.z, t.z);
  }

  datatype Rule = Rule(stages: seq<StageCondition>, disableOnMatch: Group, stopAfterApply: bool)

  /** Rule.Evaluate: true iff some stage condition matches (an empty or null
      Stages array never matches). */
  function Evaluate(rule: Rule, pose: Pose): (b: bool)
    ensures |rule.stages| == 0 ==> !b
    ensures b <==> exists i :: 0 <= i < |rule.stages| && IsStageMatch(pose, rule.stages[i])
  {
    AnyStage(rule.stages, pose, 0)
  }

  /** The OR loop of Evaluate from index i on. */
  function AnyStage(stages: seq<StageCondition>, pose: Pose, i: nat): (b: bool)
    requires i <= |stages|
    ensures b <==> exists k :: i <= k < |stages| && IsStageMatch(pose, stages[k])
    decreases |stages| - i
  {
    if i == |stages| then false
    else if IsStageMatch(pose, stages[i]) then true
    else AnyStage(stages, pose, i + 1)
  }

  type MirrorEntry = Entry<Pose, Rule>

  function DisableOf(r: Rule): Group { r.disableOnMatch }
  function StopOf(r: Rule): bool { r.stopAfterApply }

  function RuleGroups(rules: seq<Option<Rule>>): (g: seq<Group>)
    ensures forall k :: 0 <= k < |rules| && rules[k].Some? ==> rules[k].value.disableOnMatch in g
    decreases |rules|
  {
    if |rules| == 0 then []
    else
      var rest := RuleGroups(rules[1..]);
      assert forall k :: 1 <= k < |rules| ==> rules[k] == rules[1..][k - 1];
      match rules[0]
      case None => rest
      case Some(r) => [r.disableOnMatch] + rest
  }

  function AllGroups(mirrors: seq<Option<MirrorEntry>>): seq<Group>
    decreases |mirrors|
  {
    if |mirrors| == 0 then []
    else (if mirrors[0].Some? then RuleGroups(mirrors[0].value.rules) else []) + AllGroups(mirrors[1..])
  }

  /** CacheDefaultStates (run by Awake): exactly the live members of the
      rules' disable groups, each with the state it has at that moment. */
  function CacheDefaultStates(mirrors: seq<Option<MirrorEntry>>, alive: set<Target>, current: map<Target, bool>)
    : (d: map<Target, bool>)
    requires Covers(current, alive)
    ensures forall t :: t in d <==> InAny(t, AllGroups(mirrors), alive)
    ensures forall t :: t in d ==> t in alive && d[t] == current[t]
  {
    CacheDefaultStatesRecordsCurrent(AllGroups(mirrors), alive, current);
    CacheGroups(map[], AllGroups(mirrors), alive, current)
  }

  /** Update: each live cached object ends up at its default unless a
      matched rule switches it off; nothing is switched on beyond its
      default, and only objects whose flag changes are written. */
  method Update(mirrors: seq<Option<MirrorEntry>>, defaults: map<Target, bool>, current: map<Target, bool>,
                alive: set<Target>) returns (matched: seq<Rule>, a: Applied)
    requires Covers(current, alive)
    ensures forall x :: x in matched <==>
              exists i, r :: MatchesAt(mirrors, Evaluate, StopOf, i, r) && mirrors[i].value.rules[r] == Some(x)
    ensures a.current.Keys == current.Keys
    ensures forall t :: t in a.writes <==> t in current && a.current[t] != current[t]
    ensures forall t :: t in alive && t in defaults ==>
              (a.current[t] <==> defaults[t] && !Touched(matched, DisableOf, t, alive))
    ensures forall t :: Touched(matched, DisableOf, t, alive) ==> !a.current[t]
    ensures forall t :: t in current && (t !in alive || (t !in defaults && !Touched(matched, DisableOf, t, alive)))
              ==> a.current[t] == current[t]
  {
    matched := MatchedRules(mirrors, Evaluate, StopOf);
    TouchedIsInAny(matched, DisableOf, alive);
    var desired := Desired(defaults, [], GroupsOf(matched, DisableOf), alive);
    a := ApplyDesired(current, desired, alive);
  }
}
