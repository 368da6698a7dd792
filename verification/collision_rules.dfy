/** CollisionManager: per-mirror rules over position ranges and signed Euler
    ranges; matched rules switch collider/object groups on and off. */
module CollisionRules {
  import opened Geometry
  import opened Angles
  import opened Optional
  import opened Toggles

  // ---------------------------------------------------------------------
  // Ranges

  datatype FloatRange = FloatRange(enabled: bool, min: real, max: real)

  /** FloatRange.Contains: a disabled range contains everything; otherwise
      v lies in [min - eps, max + eps] after ordering the bounds. */
  function FloatContains(v: real, r: FloatRange, epsilon: real): (b: bool)
    ensures !r.enabled ==> b
    ensures r.enabled ==> (b <==> Min(r.min, r.max) - epsilon <= v <= Max(r.min, r.max) + epsilon)
  {
    if !r.enabled then true
    else
      var lo := if r.min > r.max then r.max else r.min;
      var hi := if r.min > r.max then r.min else r.max;
      v >= lo - epsilon && v <= hi + epsilon
  }

  /** Swapping Min and Max does not change the answer. */
  lemma FloatContainsSwap(v: real, r: FloatRange, epsilon: real)
    ensures FloatContains(v, FloatRange(r.enabled, r.max, r.min), epsilon) == FloatContains(v, r, epsilon)
  {
  }

  datatype AngleRange = AngleRange(enabled: bool, min: real, max: real)

  /** AngleRange.Contains (Mathf.Approximately read as equality). */
  function AngleContains(deg: real, r: AngleRange): (b: bool)
    ensures !r.enabled ==> b
    ensures r.enabled && ToSigned180(r.min) == ToSigned180(r.max) ==> (b <==> SameAngle(deg, r.min))
    ensures r.enabled && ToSigned180(r.min) < ToSigned180(r.max) ==>
              (b <==> ToSigned180(r.min) <= ToSigned180(deg) <= ToSigned180(r.max))
    ensures r.enabled && ToSigned180(r.min) > ToSigned180(r.max) ==>
              (b <==> ToSigned180(deg) >= ToSigned180(r.min) || ToSigned180(deg) <= ToSigned180(r.max))
  {
    if !r.enabled then true
    else
      var a := ToSigned180(deg);
      var lo := ToSigned180(r.min);
      var hi := ToSigned180(r.max);
      if lo == hi then
        SingleAngleMatch(deg, r.min);
        Abs(DeltaAngle(a, lo)) <= 0.0
      else if lo <= hi then a >= lo && a <= hi
      else a >= lo || a <= hi
  }

  /** The degenerate range test |DeltaAngle(a, min)| <= 0 holds exactly when
      the angle and the bound name the same direction. */
  lemma SingleAngleMatch(deg: real, min: real)
    ensures Abs(DeltaAngle(ToSigned180(deg), ToSigned180(min))) <= 0.0 <==> SameAngle(deg, min)
  {
    var a := ToSigned180(deg);
    var m := ToSigned180(min);
    DeltaAngleZeroOnSigned(a, m);
    if a == m {
      SameAngleSym(min, m);
      SameAngleTrans(deg, a, min);
    }
    if SameAngle(deg, min) {
      SameAngleSym(deg, a);
      SameAngleTrans(a, deg, min);
      SameAngleTrans(a, min, m);
      SignedRepresentativeUnique(a, m);
    }
  }

  /** ToSigned180 only depends on the direction of the angle. */
  lemma ToSigned180Periodic(x: real, y: real)
    requires SameAngle(x, y)
    ensures ToSigned180(x) == ToSigned180(y)
  {
    SameAngleSym(x, ToSigned180(x));
    SameAngleTrans(ToSigned180(x), x, y);
    SameAngleTrans(ToSigned180(x), y, ToSigned180(y));
    SignedRepresentativeUnique(ToSigned180(x), ToSigned180(y));
  }

  /** Membership of an angle range depends only on the direction: adding a
      full turn changes nothing. */
  lemma AngleContainsPeriodic(deg: real, r: AngleRange)
    ensures AngleContains(deg + 360.0, r) == AngleContains(deg, r)
  {
    assert (deg + 360.0 - deg) / 360.0 == 1.0;
    assert SameAngle(deg + 360.0, deg);
    ToSigned180Periodic(deg + 360.0, deg);
  }

  // ---------------------------------------------------------------------
  // Conditions

  datatype PositionCondition = PositionCondition(enabled: bool, space: Option<int>, x: FloatRange, y: FloatRange,
                                                 z: FloatRange, epsilon: real)

  predicate AnyAxis(x: bool, y: bool, z: bool) { x || y || z }

  /** PositionCondition.IsSatisfied on the position p as seen in the
      condition's space (world, or local to Space). */
  function PositionSatisfied(c: PositionCondition, p: Vec3): (b: bool)
    ensures !c.enabled ==> b
    ensures c.enabled && !AnyAxis(c.x.enabled, c.y.enabled, c.z.enabled) ==> !b
    ensures c.enabled && AnyAxis(c.x.enabled, c.y.enabled, c.z.enabled) ==>
              (b <==> FloatContains(p.x, c.x, c.epsilon) && FloatContains(p.y, c.y, c.epsilon)
                      && FloatContains(p.z, c.z, c.epsilon))
  {
    if !c.enabled then true
    else if !AnyAxis(c.x.enabled, c.y.enabled, c.z.enabled) then false
    else FloatContains(p.x, c.x, c.epsilon) && FloatContains(p.y, c.y, c.epsilon) && FloatContains(p.z, c.z, c.epsilon)
  }

  datatype EulerCondition = EulerCondition(enabled: bool, useLocalEuler: bool, x: AngleRange, y: AngleRange, z: AngleRange)

  /** EulerCondition.IsSatisfied on the raw Euler angles (0..360 as Unity
      reports them); each axis is made signed before the range test. */
  function EulerSatisfied(c: EulerCondition, eRaw: Vec3): (b: bool)
    ensures !c.enabled ==> b
    ensures c.enabled && !AnyAxis(c.x.enabled, c.y.enabled, c.z.enabled) ==> !b
  {
    if !c.enabled then true
    else if !AnyAxis(c.x.enabled, c.y.enabled, c.z.enabled) then false
    else AngleContains(ToSigned180(eRaw.x), c.x) && AngleContains(ToSigned180(eRaw.y), c.y)
         && AngleContains(ToSigned180(eRaw.z), c.z)
  }

  /** Making the angles signed before the range test is harmless: the
      condition is the range test on the raw angles. */
  lemma EulerSatisfiedOnRaw(c: EulerCondition, eRaw: Vec3)
    requires c.enabled && AnyAxis(c.x.enabled, c.y.enabled, c.z.enabled)
    ensures EulerSatisfied(c, eRaw) <==>
              AngleContains(eRaw.x, c.x) && AngleContains(eRaw.y, c.y) && AngleContains(eRaw.z, c.z)
  {
    ToSigned180Idempotent(eRaw.x);
    ToSigned180Idempotent(eRaw.y);
    ToSigned180Idempotent(eRaw.z);
    SameAngleSym(eRaw.x, ToSigned180(eRaw.x));
    SameAngleSym(eRaw.y, ToSigned180(eRaw.y));
    SameAngleSym(eRaw.z, ToSigned180(eRaw.z));
    SignedRawSame(eRaw.x, c.x);
    SignedRawSame(eRaw.y, c.y);
    SignedRawSame(eRaw.z, c.z);
  }

  lemma SignedRawSame(x: real, r: AngleRange)
    ensures AngleContains(ToSigned180(x), r) == AngleContains(x, r)
  {
    ToSigned180Idempotent(x);
    SameAngleSym(x, ToSigned180(x));
    if r.enabled && ToSigned180(r.min) == ToSigned180(r.max) {
      if SameAngle(x, r.min) {
        SameAngleTrans(ToSigned180(x), x, r.min);
      }
      if SameAngle(ToSigned180(x), r.min) {
        SameAngleTrans(x, ToSigned180(x), r.min);
      }
    }
  }

  // ---------------------------------------------------------------------
  // Rules

  datatype Rule = Rule(position: PositionCondition, euler: EulerCondition,
                       enableOnMatch: Group, disableOnMatch: Group, stopAfterApply: bool)

  /** The mirror's pose as the conditions read it: world position, world and
      local Euler angles. */
  datatype Pose = Pose(position: Vec3, euler: Vec3, localEuler: Vec3)

  /** Where a condition sees the mirror: world position, or the position
      mapped into the Space transform by toLocal (InverseTransformPoint). */
  function ConditionPosition(c: PositionCondition, pose: Pose, toLocal: (int, Vec3) -> Vec3): (p: Vec3)
    ensures c.space.None? ==> p == pose.position
  {
    match c.space
    case None => pose.position
    case Some(s) => toLocal(s, pose.position)
  }

  /** Rule.Evaluate: a rule with neither condition enabled never matches;
      otherwise it matches iff both conditions are satisfied. */
  function Evaluate(rule: Rule, pose: Pose, toLocal: (int, Vec3) -> Vec3): (b: bool)
    ensures !(rule.position.enabled || rule.euler.enabled) ==> !b
    ensures (rule.position.enabled || rule.euler.enabled) ==>
              (b <==> PositionSatisfied(rule.position, ConditionPosition(rule.position, pose, toLocal))
                      && EulerSatisfied(rule.euler, if rule.euler.useLocalEuler then pose.localEuler else pose.euler))
  {
    if !(rule.position.enabled || rule.euler.enabled) then false
    else if !PositionSatisfied(rule.position, ConditionPosition(rule.position, pose, toLocal)) then false
    else if !EulerSatisfied(rule.euler, if rule.euler.useLocalEuler then pose.localEuler else pose.euler) then false
    else true
  }

  /** A rule whose only enabled condition has no active axis never matches. */
  lemma NoActiveAxisNeverMatches(rule: Rule, pose: Pose, toLocal: (int, Vec3) -> Vec3)
    requires rule.position.enabled && !AnyAxis(rule.position.x.enabled, rule.position.y.enabled, rule.position.z.enabled)
    ensures !Evaluate(rule, pose, toLocal)
  {
  }

  // ---------------------------------------------------------------------
  // Manager

  type MirrorEntry = Entry<Pose, Rule>

  /** The groups the default cache is built from, in the order
      CacheDefaultStates visits them: for each rule, enable then disable. */
  function RuleGroups(rules: seq<Option<Rule>>): (g: seq<Group>)
    ensures forall k :: 0 <= k < |rules| && rules[k].Some? ==>
              rules[k].value.enableOnMatch in g && rules[k].value.disableOnMatch in g
    decreases |rules|
  {
    if |rules| == 0 then []
    else
      var rest := RuleGroups(rules[1..]);
      assert forall k :: 1 <= k < |rules| ==> rules[k] == rules[1..][k - 1];
      match rules[0]
      case None => rest
      case Some(r) => [r.enableOnMatch, r.disableOnMatch] + rest
  }

  function AllGroups(mirrors: seq<Option<MirrorEntry>>): seq<Group>
    decreases |mirrors|
  {
    if |mirrors| == 0 then []
    else (if mirrors[0].Some? then RuleGroups(mirrors[0].value.rules) else []) + AllGroups(mirrors[1..])
  }

  /** CacheDefaultStates (run by Awake): exactly the live members of the
      rules' groups, each with the state it has at that moment. */
  function CacheDefaultStates(mirrors: seq<Option<MirrorEntry>>, alive: set<Target>, current: map<Target, bool>)
    : (d: map<Target, bool>)
    requires Covers(current, alive)
    ensures forall t :: t in d <==> InAny(t, AllGroups(mirrors), alive)
    ensures forall t :: t in d ==> t in alive && d[t] == current[t]
  {
    CacheDefaultStatesRecordsCurrent(AllGroups(mirrors), alive, current);
    CacheGroups(map[], AllGroups(mirrors), alive, current)
  }

  function EnableOf(r: Rule): Group { r.enableOnMatch }
  function DisableOf(r: Rule): Group { r.disableOnMatch }
  function StopOf(r: Rule): bool { r.stopAfterApply }

  /** Update (after Awake cached the defaults): every live object ends up
      off if a matched rule disables it, else on if a matched rule enables
      it, else at its default; only objects whose flag changes are written. */
  method Update(mirrors: seq<Option<MirrorEntry>>, defaults: map<Target, bool>, current: map<Target, bool>,
                alive: set<Target>, toLocal: (int, Vec3) -> Vec3) returns (matched: seq<Rule>, a: Applied)
    requires Covers(current, alive)
    ensures forall x :: x in matched <==>
              exists i, r :: MatchesAt(mirrors, (x: Rule, p: Pose) => Evaluate(x, p, toLocal), StopOf, i, r)
                             && mirrors[i].value.rules[r] == Some(x)
    ensures a.current.Keys == current.Keys
    ensures forall t :: t in a.writes <==> t in current && a.current[t] != current[t]
    ensures forall t :: Touched(matched, DisableOf, t, alive) ==> !a.current[t]
    ensures forall t :: !Touched(matched, DisableOf, t, alive) && Touched(matched, EnableOf, t, alive) ==> a.current[t]
    ensures forall t :: t in alive && t in defaults && !Touched(matched, DisableOf, t, alive)
                        && !Touched(matched, EnableOf, t, alive)
              ==> a.current[t] == defaults[t]
    ensures forall t :: t in current && t !in alive ==> a.current[t] == current[t]
    ensures forall t :: t in current && t !in defaults && !Touched(matched, DisableOf, t, alive)
                        && !Touched(matched, EnableOf, t, alive)
              ==> a.current[t] == current[t]
  {
    matched := MatchedRules(mirrors, (x: Rule, p: Pose) => Evaluate(x, p, toLocal), StopOf);
    TouchedIsInAny(matched, EnableOf, alive);
    TouchedIsInAny(matched, DisableOf, alive);
    var desired := Desired(defaults, GroupsOf(matched, EnableOf), GroupsOf(matched, DisableOf), alive);
    a := ApplyDesired(current, desired, alive);
  }
}
