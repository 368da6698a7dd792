/** SpriteMover: the per-frame input step of the player sprite.  Held
    flags of the four directions come in (keyboard or left stick); the
    step keeps the last-pressed direction, picks which child visual to show
    (the release visual for one frame, else the pressed one), produces the
    integer move axes, and handles the movement lock.  Rigidbody motion in
    FixedUpdate is not part of this model. */
module SpriteMover {
  import opened Directions

  /** The position and rotation freezes of RigidbodyConstraints. */
  datatype Freeze = FreezePosX | FreezePosY | FreezePosZ | FreezeRot

  const FreezeAll: set<Freeze> := {FreezePosX, FreezePosY, FreezePosZ, FreezeRot}

  /** The eight child visuals. */
  datatype Slot = Press(pressed: Dir) | Release(released: Dir)

  /** What a step does to the child visuals: nothing, hide all eight,
      show only one of them, or ShowOnly(m_DefaultVisual). */
  datatype Display = Keep | HideAll | ShowOnly(slot: Slot) | ShowDefault

  datatype MoverConfig = MoverConfig(isKeyLeft: bool, moveInXZPlane: bool, freezeYPosition: bool,
                                     freezeAllPositionOnLock: bool, hasDefaultVisual: bool)

  datatype MoverState = MoverState(locked: bool, hideVisualWhenLocked: bool, lastPressed: Dir,
                                   prevHeld: Dirs, move: (int, int),
                                   constraints: set<Freeze>, originalConstraints: set<Freeze>)

  /** Rank of a direction in the order Right, Left, Up, Down. */
  function DownRank(d: Dir): int
  {
    match d
    case Right => 0
    case Left => 1
    case Up => 2
    case Down => 3
    case None => 4
  }

  /** Rank of a direction in the fixed held priority Up, Down, Right, Left. */
  function HeldRank(d: Dir): int
  {
    match d
    case Up => 0
    case Down => 1
    case Right => 2
    case Left => 3
    case None => 4
  }

  /** The first flagged direction in the order Right, Left, Up, Down. */
  function FirstInOrder(ds: Dirs): (r: Dir)
    ensures r == None <==> ds == NoDirs
    ensures r != None ==> Has(ds, r)
    ensures forall d: Dir :: Has(ds, d) ==> DownRank(r) <= DownRank(d)
  {
    if ds.r then Right else if ds.l then Left else if ds.u then Up else if ds.d then Down else None
  }

  /** The last-pressed direction after this frame's down edges. */
  function NextLastPressed(last: Dir, down: Dirs): (r: Dir)
    ensures down == NoDirs ==> r == last
    ensures down != NoDirs ==> Has(down, r) && forall d: Dir :: Has(down, d) ==> DownRank(r) <= DownRank(d)
  {
    var f := FirstInOrder(down);
    if f == None then last else f
  }

  /** The released direction to show: the release of the last-pressed
      direction first, otherwise the first release in the order Right,
      Left, Up, Down. */
  function ReleaseDir(last: Dir, up: Dirs): (r: Dir)
    ensures r == None <==> up == NoDirs
    ensures r != None ==> Has(up, r)
    ensures Has(up, last) ==> r == last
    ensures !Has(up, last) ==> forall d: Dir :: Has(up, d) ==> DownRank(r) <= DownRank(d)
  {
    if Has(up, last) then last else FirstInOrder(up)
  }

  /** GetActiveHeldDir: the last-pressed direction while it is held,
      otherwise the first held one in the order Up, Down, Right, Left. */
  function GetActiveHeldDir(last: Dir, held: Dirs): (r: Dir)
    ensures r == None <==> held == NoDirs
    ensures r != None ==> Has(held, r)
    ensures Has(held, last) ==> r == last
    ensures !Has(held, last) ==> forall d: Dir :: Has(held, d) ==> HeldRank(r) <= HeldRank(d)
  {
    if Has(held, last) then last
    else if held.u then Up else if held.d then Down else if held.r then Right else if held.l then Left
    else None
  }

  function B(b: bool): int { if b then 1 else 0 }

  /** ReadMoveDirection3D before normalisation: each axis is in {-1,0,1},
      opposite keys cancel.  Without m_IsKeyLeft Right/Left drive x and
      Up/Down drive y; with it Right is -y, Left +y, Up +x, Down -x. */
  function MoveAxes(isKeyLeft: bool, held: Dirs): (r: (int, int))
    ensures -1 <= r.0 <= 1 && -1 <= r.1 <= 1
    ensures !isKeyLeft ==> r == (B(held.r) - B(held.l), B(held.u) - B(held.d))
    ensures isKeyLeft ==> r == (B(held.u) - B(held.d), B(held.l) - B(held.r))
  {
    var x := 0;
    var y := 0;
    if isKeyLeft then
      (x + (if held.u then 1 else 0) - (if held.d then 1 else 0),
       y - (if held.r then 1 else 0) + (if held.l then 1 else 0))
    else
      (x + (if held.r then 1 else 0) - (if held.l then 1 else 0),
       y + (if held.u then 1 else 0) - (if held.d then 1 else 0))
  }

  /** The m_IsKeyLeft mapping is the plain mapping turned a quarter turn. */
  lemma KeyLeftIsQuarterTurn(held: Dirs)
    ensures MoveAxes(true, held) == (MoveAxes(false, held).1, -MoveAxes(false, held).0)
  {
  }

  /** Holding both keys of an axis is the same as holding neither. */
  lemma OpposingKeysCancel(isKeyLeft: bool, held: Dirs)
    ensures MoveAxes(isKeyLeft, held.(r := true, l := true)) == MoveAxes(isKeyLeft, held.(r := false, l := false))
    ensures MoveAxes(isKeyLeft, held.(u := true, d := true)) == MoveAxes(isKeyLeft, held.(u := false, d := false))
  {
  }

  /** Update: a locked step clears the move, the last-pressed direction and
      the previous held flags (hiding the visuals if configured); an
      unlocked step records the first down edge, shows the release visual
      if any direction was released and otherwise the active held one, and
      stores this frame's held flags. */
  function Update(st: MoverState, cfg: MoverConfig, held: Dirs): (r: (MoverState, Display))
    ensures r.0.locked == st.locked && r.0.constraints == st.constraints
    ensures r.0.originalConstraints == st.originalConstraints
    ensures st.locked ==> r.0.move == (0, 0) && r.0.lastPressed == None && r.0.prevHeld == NoDirs
    ensures st.locked ==> r.1 == (if st.hideVisualWhenLocked then HideAll else Keep)
    ensures !st.locked ==>
              var e := StepDirs(st.prevHeld, held);
              r.0.prevHeld == held
              && r.0.move == MoveAxes(cfg.isKeyLeft, held)
              && r.0.lastPressed == NextLastPressed(st.lastPressed, e.down)
              && (e.up != NoDirs ==> r.1 == ShowOnly(Release(ReleaseDir(r.0.lastPressed, e.up))))
              && (e.up == NoDirs && held != NoDirs ==> r.1 == ShowOnly(Press(GetActiveHeldDir(r.0.lastPressed, held))))
              && (e.up == NoDirs && held == NoDirs ==> r.1 == Keep)
  {
    if st.locked then
      (st.(move := (0, 0), lastPressed := None, prevHeld := NoDirs),
       if st.hideVisualWhenLocked then HideAll else Keep)
    else
      var e := StepDirs(st.prevHeld, held);
      var last := NextLastPressed(st.lastPressed, e.down);
      var release := ReleaseDir(last, e.up);
      var display :=
        if release != None then ShowOnly(Release(release))
        else if held != NoDirs then ShowOnly(Press(GetActiveHeldDir(last, held)))
        else Keep;
      (st.(lastPressed := last, move := MoveAxes(cfg.isKeyLeft, held), prevHeld := held), display)
  }

  /** The shown visual always belongs to a direction with the matching
      edge or held flag. */
  lemma ShownVisualIsLive(st: MoverState, cfg: MoverConfig, held: Dirs)
    requires !st.locked
    ensures var (_, display) := Update(st, cfg, held);
            var e := StepDirs(st.prevHeld, held);
            (display.ShowOnly? && display.slot.Release? ==> Has(e.up, display.slot.released) && !Has(held, display.slot.released))
            && (display.ShowOnly? && display.slot.Press? ==> Has(held, display.slot.pressed))
  {
  }

  /** ApplyLockStateImmediate: clears the move, the last-pressed direction
      and the previous held flags, and (if configured) saves the current
      constraints and freezes every axis. */
  function ApplyLockStateImmediate(st: MoverState, cfg: MoverConfig): (r: (MoverState, Display))
    ensures r.0.move == (0, 0) && r.0.lastPressed == None && r.0.prevHeld == NoDirs
    ensures r.0.locked == st.locked && r.0.hideVisualWhenLocked == st.hideVisualWhenLocked
    ensures cfg.freezeAllPositionOnLock ==> r.0.constraints == FreezeAll && r.0.originalConstraints == st.constraints
    ensures !cfg.freezeAllPositionOnLock ==> r.0.constraints == st.constraints && r.0.originalConstraints == st.originalConstraints
    ensures r.1 == (if st.hideVisualWhenLocked then HideAll else Keep)
  {
    var cleared := st.(move := (0, 0), lastPressed := None, prevHeld := NoDirs);
    var frozen := if cfg.freezeAllPositionOnLock
                  then cleared.(originalConstraints := st.constraints, constraints := FreezeAll)
                  else cleared;
    (frozen, if st.hideVisualWhenLocked then HideAll else Keep)
  }

  /** LockMovement(hideVisual). */
  function LockMovement(st: MoverState, cfg: MoverConfig, hideVisual: bool): (r: (MoverState, Display))
    ensures r.0.locked && r.0.hideVisualWhenLocked == hideVisual
    ensures r.0.move == (0, 0) && r.0.lastPressed == None && r.0.prevHeld == NoDirs
    ensures r.1 == (if hideVisual then HideAll else Keep)
  {
    ApplyLockStateImmediate(st.(locked := true, hideVisualWhenLocked := hideVisual), cfg)
  }

  /** UnlockMovement: restores the saved constraints; the visuals follow
      later input. */
  function UnlockMovement(st: MoverState): (r: MoverState)
    ensures !r.locked && r.constraints == st.originalConstraints
    ensures r == st.(locked := false, constraints := st.originalConstraints)
  {
    st.(locked := false, constraints := st.originalConstraints)
  }

  /** With freezing on lock, lock then unlock gives the constraints back;
      without it the unlock restores the constraints saved earlier. */
  lemma LockUnlockRestores(st: MoverState, cfg: MoverConfig, hideVisual: bool)
    ensures !cfg.freezeAllPositionOnLock ==>
              UnlockMovement(LockMovement(st, cfg, hideVisual).0).constraints == st.originalConstraints
    ensures cfg.freezeAllPositionOnLock ==> UnlockMovement(LockMovement(st, cfg, hideVisual).0).constraints == st.constraints
  {
  }

  /** A second lock before the unlock saves the frozen constraints over the
      original ones, so the unlock leaves every axis frozen. */
  lemma DoubleLockKeepsFrozen(st: MoverState, cfg: MoverConfig, h1: bool, h2: bool)
    requires cfg.freezeAllPositionOnLock
    ensures UnlockMovement(LockMovement(LockMovement(st, cfg, h1).0, cfg, h2).0).constraints == FreezeAll
  {
  }

  /** Awake: the initial visual, freeze rotation (and Y in the XZ plane if
      configured), remember those constraints, apply a configured lock,
      and clear the previous held flags. */
  function Awake(cfg: MoverConfig, locked: bool, hideVisualWhenLocked: bool): (r: (MoverState, seq<Display>))
    ensures r.0.locked == locked && r.0.prevHeld == NoDirs && r.0.lastPressed == None && r.0.move == (0, 0)
    ensures !locked || !cfg.freezeAllPositionOnLock ==>
              r.0.constraints == r.0.originalConstraints
              && (FreezePosY in r.0.constraints <==> cfg.moveInXZPlane && cfg.freezeYPosition)
              && FreezeRot in r.0.constraints && FreezePosX !in r.0.constraints && FreezePosZ !in r.0.constraints
    ensures locked && cfg.freezeAllPositionOnLock ==> r.0.constraints == FreezeAll
    ensures |r.1| >= 1 && r.1[0] == (if cfg.hasDefaultVisual then ShowDefault else HideAll)
  {
    var initial := if cfg.hasDefaultVisual then ShowDefault else HideAll;
    var c := {FreezeRot} + (if cfg.moveInXZPlane && cfg.freezeYPosition then {FreezePosY} else {});
    var st := MoverState(locked, hideVisualWhenLocked, None, NoDirs, (0, 0), c, c);
    if locked then
      var (locked', d) := ApplyLockStateImmediate(st, cfg);
      (locked', [initial, d])
    else (st, [initial])
  }
}
