/** CatSelect: the stage-select cat.  Each direction keeps the frame of
    its last down edge and whether it is held; the latest-pressed held
    direction drives both the walk/wait visual and the (left/right only)
    movement.  Rigidbody motion in FixedUpdate is not part of this model. */
module CatSelect {
  import opened Geometry
  import opened Directions
  import Optional

  /** int.MinValue: the last-down frame of a key never pressed. */
  const MinInt: int := -0x8000_0000

  datatype KeyState = KeyState(lastDown: int, held: bool)

  datatype Keys = Keys(r: KeyState, l: KeyState, u: KeyState, d: KeyState)

  const NoKey := KeyState(MinInt, false)

  function Key(keys: Keys, d: Dir): KeyState
  {
    match d
    case Right => keys.r
    case Left => keys.l
    case Up => keys.u
    case Down => keys.d
    case None => NoKey
  }

  /** One direction's raw input this frame: GetKey, GetKeyDown, GetKeyUp. */
  datatype KeyInput = KeyInput(held: bool, down: bool, up: bool)

  datatype Inputs = Inputs(r: KeyInput, l: KeyInput, u: KeyInput, d: KeyInput)

  /** UpdateKeyState: a down edge records the frame; an up edge forces
      not-held, otherwise held copies the input. */
  function UpdateKeyState(k: KeyState, input: KeyInput, frame: int): (r: KeyState)
    ensures input.down ==> r.lastDown == frame
    ensures !input.down ==> r.lastDown == k.lastDown
    ensures r.held <==> input.held && !input.up
  {
    KeyState(if input.down then frame else k.lastDown, if input.up then false else input.held)
  }

  function UpdateKeys(keys: Keys, input: Inputs, frame: int): Keys
  {
    Keys(UpdateKeyState(keys.r, input.r, frame), UpdateKeyState(keys.l, input.l, frame),
         UpdateKeyState(keys.u, input.u, frame), UpdateKeyState(keys.d, input.d, frame))
  }

  /** Position in the tie-break order Right, Left, Up, Down. */
  function Rank(d: Dir): int
  {
    match d
    case Right => 0
    case Left => 1
    case Up => 2
    case Down => 3
    case None => 4
  }

  /** A direction that can be selected: held, and pressed at some frame. */
  predicate Candidate(keys: Keys, d: Dir)
  {
    d != None && Key(keys, d).held && Key(keys, d).lastDown > MinInt
  }

  /** One Check(d) of SelectLatestHeldDir on the running best. */
  function Check(keys: Keys, best: Dir, bestFrame: int, d: Dir): (r: (Dir, int))
    ensures r.1 >= bestFrame
    ensures r.1 > bestFrame <==> Key(keys, d).held && Key(keys, d).lastDown > bestFrame
    ensures r.1 > bestFrame ==> r == (d, Key(keys, d).lastDown)
    ensures r.1 == bestFrame ==> r == (best, bestFrame)
  {
    if !Key(keys, d).held then (best, bestFrame)
    else if Key(keys, d).lastDown > bestFrame then (d, Key(keys, d).lastDown)
    else (best, bestFrame)
  }

  /** SelectLatestHeldDir: a held direction whose last down edge is the
      latest, ties going to the earlier of Right, Left, Up, Down; None when
      no direction is a candidate. */
  function SelectLatestHeldDir(keys: Keys): (r: Dir)
    ensures r == None <==> forall d: Dir :: !Candidate(keys, d)
    ensures r != None ==> Candidate(keys, r)
    ensures r != None ==> forall d: Dir :: Candidate(keys, d) ==>
              Key(keys, d).lastDown < Key(keys, r).lastDown
              || (Key(keys, d).lastDown == Key(keys, r).lastDown && Rank(r) <= Rank(d))
  {
    var s1 := Check(keys, None, MinInt, Right);
    var s2 := Check(keys, s1.0, s1.1, Left);
    var s3 := Check(keys, s2.0, s2.1, Up);
    var s4 := Check(keys, s3.0, s3.1, Down);
    assert Candidate(keys, Right) ==> s1.0 != None;
    assert s1.0 != None ==> s2.0 != None && s3.0 != None && s4.0 != None;
    assert Candidate(keys, Left) ==> s2.0 != None;
    assert s2.0 != None ==> s3.0 != None && s4.0 != None;
    assert Candidate(keys, Up) ==> s3.0 != None;
    assert Candidate(keys, Down) ==> s4.0 != None;
    assert forall d: Dir :: Candidate(keys, d) ==> d == Right || d == Left || d == Up || d == Down;
    s4.0
  }

  /** The eight child visuals. */
  datatype Visual = FrontWaitL | FrontWaitR | BackWaitL | BackWaitR
                  | FrontWalkL | FrontWalkR | BackWalkL | BackWalkR

  /** The four walking visuals. */
  predicate IsWalk(v: Visual)
  {
    v.FrontWalkL? || v.FrontWalkR? || v.BackWalkL? || v.BackWalkR?
  }

  /** Right and Up face away from the camera (the Back visuals). */
  predicate IsBack(v: Visual)
  {
    v.BackWaitL? || v.BackWaitR? || v.BackWalkL? || v.BackWalkR?
  }

  /** ShowWalkFor's mapping: every direction has a walking visual, None has
      none, and Right and Up show a Back visual. */
  function WalkVisual(d: Dir): (r: Optional.Option<Visual>)
    ensures r.Some? <==> d != None
    ensures r.Some? ==> IsWalk(r.value) && (IsBack(r.value) <==> d == Right || d == Up)
  {
    match d
    case Right => Optional.Some(BackWalkR)
    case Left => Optional.Some(FrontWalkL)
    case Up => Optional.Some(BackWalkL)
    case Down => Optional.Some(FrontWalkR)
    case None => Optional.None
  }

  /** ShowWaitFor's mapping: every direction has a waiting visual, None has
      none, and Right and Up show a Back visual. */
  function WaitVisual(d: Dir): (r: Optional.Option<Visual>)
    ensures r.Some? <==> d != None
    ensures r.Some? ==> !IsWalk(r.value) && (IsBack(r.value) <==> d == Right || d == Up)
  {
    match d
    case Right => Optional.Some(BackWaitR)
    case Left => Optional.Some(FrontWaitL)
    case Up => Optional.Some(BackWaitL)
    case Down => Optional.Some(FrontWaitR)
    case None => Optional.None
  }

  /** Distinct directions show distinct visuals, walking or waiting, and a
      direction's walk and wait visuals differ. */
  lemma VisualsInjective(a: Dir, b: Dir)
    ensures WalkVisual(a) == WalkVisual(b) ==> a == b
    ensures WaitVisual(a) == WaitVisual(b) ==> a == b
    ensures a != None ==> WalkVisual(a) != WaitVisual(b)
  {
  }

  /** The visual shown state: the tracked current one, the set of visuals
      that are active, and the visuals that are present (non-null). */
  datatype Shown = Shown(current: Optional.Option<Visual>, active: set<Visual>)

  /** Exactly the current visual is active. */
  predicate OnlyCurrent(s: Shown)
  {
    s.active == (if s.current.Some? then {s.current.value} else {})
  }

  /** SwitchActive: an unpresent target or the current one changes
      nothing; otherwise the previous visual is turned off and the target
      on. */
  function SwitchActive(s: Shown, target: Optional.Option<Visual>, present: set<Visual>): (r: Shown)
    ensures !target.Some? || target.value !in present || s.current == target ==> r == s
    ensures target.Some? && target.value in present && s.current != target ==>
              r.current == target && target.value in r.active
              && (s.current.Some? ==> s.current.value !in r.active)
    ensures OnlyCurrent(s) ==> OnlyCurrent(r)
  {
    if !target.Some? || target.value !in present then s
    else if s.current == target then s
    else
      var off := if s.current.Some? then s.active - {s.current.value} else s.active;
      Shown(target, off + {target.value})
  }

  /** Switching to the same target twice is switching once. */
  lemma SwitchActiveIdempotent(s: Shown, target: Optional.Option<Visual>, present: set<Visual>)
    ensures SwitchActive(SwitchActive(s, target, present), target, present) == SwitchActive(s, target, present)
  {
  }

  /** DirToMoveVector: only Right and Left move, along x. */
  function DirToMoveVector(d: Dir): (v: Vec3)
    ensures v.y == 0.0 && v.z == 0.0
    ensures v.x == (if d == Right then 1.0 else if d == Left then -1.0 else 0.0)
    ensures d == Up || d == Down || d == None ==> v == Zero
  {
    match d
    case Right => Vec3(1.0, 0.0, 0.0)
    case Left => Vec3(-1.0, 0.0, 0.0)
    case _ => Zero
  }

  datatype CatState = CatState(keys: Keys, activeDir: Dir, shown: Shown, move: Vec3)

  /** Update: refresh the keys, select the latest held direction, show its
      walk visual and make it active; with nothing selected show the wait
      visual of the previous active direction and clear it; move along the
      active direction. */
  function Update(st: CatState, input: Inputs, frame: int, present: set<Visual>): (r: CatState)
    ensures r.keys == UpdateKeys(st.keys, input, frame)
    ensures var sel := SelectLatestHeldDir(r.keys);
            (sel != None ==> r.activeDir == sel && r.shown == SwitchActive(st.shown, WalkVisual(sel), present))
            && (sel == None && st.activeDir != None ==>
                  r.activeDir == None && r.shown == SwitchActive(st.shown, WaitVisual(st.activeDir), present))
            && (sel == None && st.activeDir == None ==> r.activeDir == None && r.shown == st.shown)
    ensures r.move == DirToMoveVector(r.activeDir)
    ensures OnlyCurrent(st.shown) ==> OnlyCurrent(r.shown)
  {
    var keys := UpdateKeys(st.keys, input, frame);
    var sel := SelectLatestHeldDir(keys);
    var (active, shown) :=
      if sel != None then (sel, SwitchActive(st.shown, WalkVisual(sel), present))
      else if st.activeDir != None then (None, SwitchActive(st.shown, WaitVisual(st.activeDir), present))
      else (st.activeDir, st.shown);
    CatState(keys, active, shown, DirToMoveVector(active))
  }

  /** Awake: no key pressed yet, everything off, then the front wait
      (right) visual. */
  function Awake(present: set<Visual>): (r: CatState)
    ensures forall d: Dir :: Key(r.keys, d) == NoKey
    ensures r.activeDir == None && r.move == Zero
    ensures OnlyCurrent(r.shown)
    ensures r.shown.current == (if FrontWaitR in present then Optional.Some(FrontWaitR) else Optional.None)
  {
    CatState(Keys(NoKey, NoKey, NoKey, NoKey), None,
             SwitchActive(Shown(Optional.None, {}), Optional.Some(FrontWaitR), present), Zero)
  }

  /** A key held since before it was ever seen going down is never
      selected. */
  lemma NeverPressedNeverSelected(keys: Keys, d: Dir)
    requires d != None && Key(keys, d).lastDown == MinInt
    ensures SelectLatestHeldDir(keys) != d
  {
  }
}
