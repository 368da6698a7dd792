/** UITripleSelect: three images (left, center, right), one focused; left
    and right keys move the focus, decide loads the focused item's scene.
    SE playback and scene loading are output events. */
module TripleSelect {
  import opened Geometry
  import opened Optional

  predicate ValidIndex(i: int) { 0 <= i <= 2 }

  datatype TripleConfig = TripleConfig(sceneLeft: string, sceneCenter: string, sceneRight: string,
                                       acceptKeypadEnter: bool, waitDecideSEBeforeLoad: bool,
                                       hasDecideSE: bool)

  /** SetIndex: the target is clamped to [0, 2]; when that is the current
      index nothing changes and no SE plays, otherwise the focus moves and
      the select SE plays. */
  function SetIndex(current: int, newIndex: int): (r: (int, bool))
    requires ValidIndex(current)
    ensures ValidIndex(r.0)
    ensures r.0 == ClampInt(newIndex, 0, 2) || (r.0 == current && ClampInt(newIndex, 0, 2) == current)
    ensures r.1 <==> r.0 != current
    ensures newIndex < 0 && current == 0 ==> r == (0, false)
    ensures newIndex > 2 && current == 2 ==> r == (2, false)
  {
    var clamped := ClampInt(newIndex, 0, 2);
    if clamped == current then (current, false) else (clamped, true)
  }

  /** Moving left then right (or right then left) away from the edges
      returns to the start. */
  lemma LeftRightInverse(i: int)
    requires ValidIndex(i)
    ensures i > 0 ==> SetIndex(SetIndex(i, i - 1).0, SetIndex(i, i - 1).0 + 1).0 == i
    ensures i < 2 ==> SetIndex(SetIndex(i, i + 1).0, SetIndex(i, i + 1).0 - 1).0 == i
  {
  }

  datatype Tint = Focused | Unfocused

  /** ApplyColors: every assigned image among the first three gets the
      focused colour exactly when it is the current one. */
  function ApplyColors(current: int, items: seq<Option<int>>): (tints: map<int, Tint>)
    ensures forall i :: i in tints <==> 0 <= i < 3 && i < |items| && items[i].Some?
    ensures forall i :: i in tints ==> (tints[i] == Focused <==> i == current)
  {
    map i | 0 <= i < 3 && i < |items| && items[i].Some? :: if i == current then Focused else Unfocused
  }

  /** The scene of each position. */
  function SceneFor(cfg: TripleConfig, index: int): string
  {
    if index == 0 then cfg.sceneLeft else if index == 1 then cfg.sceneCenter else cfg.sceneRight
  }

  /** No load, an immediate load (after starting the decide SE), or a load
      once the decide SE has played. */
  datatype Decision = NoLoad | LoadNow(scene: string) | LoadAfterSE(scene: string)

  /** OnDecide. */
  function OnDecide(cfg: TripleConfig, current: int): (d: Decision)
    requires ValidIndex(current)
    ensures current == 0 && cfg.sceneLeft == "" ==> d == NoLoad
    ensures d == NoLoad <==> SceneFor(cfg, current) == ""
    ensures d.LoadNow? || d.LoadAfterSE? ==> d.scene == SceneFor(cfg, current)
    ensures d.LoadAfterSE? <==> SceneFor(cfg, current) != "" && cfg.waitDecideSEBeforeLoad && cfg.hasDecideSE
  {
    var scene := if current == 0 then cfg.sceneLeft else if current == 1 then cfg.sceneCenter else cfg.sceneRight;
    if scene == "" then NoLoad
    else if cfg.waitDecideSEBeforeLoad && cfg.hasDecideSE then LoadAfterSE(scene)
    else LoadNow(scene)
  }

  /** Each position loads its own scene. */
  lemma DecideMapsPositions(cfg: TripleConfig)
    requires cfg.sceneLeft != "" && cfg.sceneCenter != "" && cfg.sceneRight != ""
    requires !cfg.waitDecideSEBeforeLoad
    ensures OnDecide(cfg, 0) == LoadNow(cfg.sceneLeft)
    ensures OnDecide(cfg, 1) == LoadNow(cfg.sceneCenter)
    ensures OnDecide(cfg, 2) == LoadNow(cfg.sceneRight)
  {
  }

  /** Update: the left key is checked before the right key; decide (the
      decide key, or keypad Enter when accepted) acts on the new focus. */
  function Update(current: int, cfg: TripleConfig, leftDown: bool, rightDown: bool, decideDown: bool,
                  keypadEnterDown: bool): (r: (int, bool, Decision))
    requires ValidIndex(current)
    ensures ValidIndex(r.0)
    ensures leftDown ==> (r.0, r.1) == SetIndex(current, current - 1)
    ensures !leftDown && rightDown ==> (r.0, r.1) == SetIndex(current, current + 1)
    ensures !leftDown && !rightDown ==> r.0 == current && !r.1
    ensures (decideDown || (cfg.acceptKeypadEnter && keypadEnterDown)) ==> r.2 == OnDecide(cfg, r.0)
    ensures !(decideDown || (cfg.acceptKeypadEnter && keypadEnterDown)) ==> r.2 == NoLoad
  {
    var (index, se) := if leftDown then SetIndex(current, current - 1)
                       else if rightDown then SetIndex(current, current + 1)
                       else (current, false);
    var decision := if decideDown || (cfg.acceptKeypadEnter && keypadEnterDown) then OnDecide(cfg, index) else NoLoad;
    (index, se, decision)
  }

  /** Pressing left and right together is pressing left alone. */
  lemma LeftBeatsRight(current: int, cfg: TripleConfig, decide: bool, keypad: bool)
    requires ValidIndex(current)
    ensures Update(current, cfg, true, true, decide, keypad) == Update(current, cfg, true, false, decide, keypad)
  {
  }

  /** SetFocusLeft / SetFocusCenter / SetFocusRight. */
  function SetFocus(position: int, items: seq<Option<int>>): (r: (int, map<int, Tint>))
    requires ValidIndex(position)
    ensures r.0 == position
    ensures forall i :: i in r.1 ==> (r.1[i] == Focused <==> i == position)
  {
    (position, ApplyColors(position, items))
  }
}
