/** PauseMenu: open/close with Escape or Start, choose Retry / ExitStage /
    Back with up/down, decide with Enter or A.  Time.timeScale and the
    static IsPaused flag are part of the state; SE and LoadScene are output
    events. */
module Pause {
  import opened Optional

  datatype MenuItem = Retry | ExitStage | Back

  function Index(m: MenuItem): (i: int)
    ensures 0 <= i <= 2
  {
    match m
    case Retry => 0
    case ExitStage => 1
    case Back => 2
  }

  function ItemAt(i: int): (m: MenuItem)
    requires 0 <= i <= 2
    ensures Index(m) == i
  {
    if i == 0 then Retry else if i == 1 then ExitStage else Back
  }

  datatype PauseConfig = PauseConfig(retrySceneName: string, exitStageSceneName: string)

  datatype PauseState = PauseState(visible: bool, performingAction: bool, prevTimeScale: real,
                                   upOnce: nat, downOnce: nat, current: MenuItem,
                                   timeScale: real, isPaused: bool)

  /** One frame's input: toggle is GetKeyDown(toggleKey) or Start, reset is
      GetKeyDown(resetKey) or Start, decide is GetKeyDown(decideKey) or A;
      the stick flags are the left stick's raw up/down tests (y >= 0.2,
      y <= -0.2), not the hysteresis latch. */
  datatype PauseInput = PauseInput(toggle: bool, upKey: bool, downKey: bool, reset: bool, decide: bool,
                                   stickUp: bool, stickDown: bool)

  datatype PauseEvents = PauseEvents(selectSE: bool, decideSE: bool, load: Option<string>)

  const NoEvents := PauseEvents(false, false, None)

  /** ApplySelectionVisuals: each present item group is lit exactly when it
      is the current item; absent groups are skipped. */
  function SelectionVisuals(current: MenuItem, present: set<MenuItem>): (lit: map<MenuItem, bool>)
    ensures lit.Keys == present
    ensures forall m :: m in lit ==> (lit[m] <==> m == current)
  {
    map m | m in present :: m == current
  }

  /** At most one group is lit, and it is the current item's. */
  lemma ExactlyCurrentLit(current: MenuItem, present: set<MenuItem>, a: MenuItem, b: MenuItem)
    requires a in present && b in present
    requires SelectionVisuals(current, present)[a] && SelectionVisuals(current, present)[b]
    ensures a == b == current
  {
  }

  /** SetVisible: opening saves the time scale, pauses, and selects Back;
      closing restores 1 (forceInit) or the saved scale.  Both clear the
      performing flag. */
  function SetVisible(st: PauseState, enable: bool, forceInit: bool): (r: PauseState)
    ensures r.visible == enable && r.isPaused == enable && !r.performingAction
    ensures enable ==> r.prevTimeScale == st.timeScale && r.timeScale == 0.0 && r.current == Back
    ensures !enable ==> r.timeScale == (if forceInit then 1.0 else st.prevTimeScale)
                        && r.prevTimeScale == st.prevTimeScale && r.current == st.current
    ensures r.upOnce == st.upOnce && r.downOnce == st.downOnce
  {
    if enable then
      st.(visible := true, prevTimeScale := st.timeScale, timeScale := 0.0, isPaused := true,
          current := Back, performingAction := false)
    else
      st.(visible := false, timeScale := if forceInit then 1.0 else st.prevTimeScale, isPaused := false,
          performingAction := false)
  }

  /** Opening and then closing the menu gives the time scale back. */
  lemma OpenCloseRestoresTimeScale(st: PauseState)
    ensures SetVisible(SetVisible(st, true, false), false, false).timeScale == st.timeScale
    ensures !SetVisible(SetVisible(st, true, false), false, false).isPaused
  {
  }

  /** Awake: hidden, not paused, time scale 1. */
  function Awake(st: PauseState): (r: PauseState)
    ensures !r.visible && !r.isPaused && r.timeScale == 1.0 && !r.performingAction
  {
    SetVisible(st, false, true)
  }

  /** The vertical selection step: up (a key press, or the first frame the
      stick is up) moves one item toward Retry, else down moves one item
      toward Back, else reset selects Back.  Only up/down moves play the
      select SE. */
  function Navigate(current: MenuItem, up: bool, down: bool, reset: bool): (r: (MenuItem, bool))
    ensures up ==> r.0 == (if current == Retry then Retry else ItemAt(Index(current) - 1))
    ensures !up && down ==> r.0 == (if current == Back then Back else ItemAt(Index(current) + 1))
    ensures !up && !down && reset ==> r.0 == Back
    ensures !up && !down && !reset ==> r.0 == current
    ensures r.1 <==> (up || down) && r.0 != current
  {
    if up then
      if Index(current) > Index(Retry) then (ItemAt(Index(current) - 1), true) else (current, false)
    else if down then
      if Index(current) < Index(Back) then (ItemAt(Index(current) + 1), true) else (current, false)
    else if reset then (Back, false)
    else (current, false)
  }

  /** Up from Back reaches Retry in two steps; down is the inverse of up
      away from the ends. */
  lemma UpDownInverse(m: MenuItem)
    ensures m != Retry ==> Navigate(Navigate(m, true, false, false).0, false, true, false).0 == m
    ensures m != Back ==> Navigate(Navigate(m, false, true, false).0, true, false, false).0 == m
  {
  }

  /** PlayThenLoadScene, which runs to completion inside StartCoroutine: an
      empty name does nothing; otherwise the action flag is set, time is
      unpaused to the saved scale, and the scene is loaded. */
  function PlayThenLoadScene(st: PauseState, sceneName: string): (r: (PauseState, PauseEvents))
    ensures sceneName == "" ==> r == (st, NoEvents)
    ensures sceneName != "" ==>
              r.0 == st.(performingAction := true, timeScale := st.prevTimeScale, isPaused := false)
              && r.1 == PauseEvents(false, true, Some(sceneName))
  {
    if sceneName == "" then (st, NoEvents)
    else (st.(performingAction := true, timeScale := st.prevTimeScale, isPaused := false),
          PauseEvents(false, true, Some(sceneName)))
  }

  /** The toggle input flips the menu's visibility through SetVisible. */
  function Toggle(st: PauseState, toggle: bool): (r: PauseState)
    ensures r.visible == (st.visible != toggle)
    ensures !toggle ==> r == st
    ensures toggle && !st.visible ==> r == SetVisible(st, true, false)
    ensures toggle && st.visible ==> r == SetVisible(st, false, false)
  {
    if toggle then SetVisible(st, !st.visible, false) else st
  }

  /** The decide step on the current item: Back closes the menu (time back
      to the saved scale); Retry and ExitStage load their scene unless its
      name is empty. */
  function Decide(s: PauseState, cfg: PauseConfig, moved: bool, decide: bool): (r: (PauseState, PauseEvents))
    ensures r.1.selectSE == moved
    ensures !decide ==> r == (s, PauseEvents(moved, false, None))
    ensures decide && s.current == Back ==>
              !r.0.visible && !r.0.isPaused && r.0.timeScale == s.prevTimeScale
              && r.1 == PauseEvents(moved, true, None)
    ensures decide && s.current != Back ==>
              var name := if s.current == Retry then cfg.retrySceneName else cfg.exitStageSceneName;
              (name == "" ==> r == (s, PauseEvents(moved, false, None)))
              && (name != "" ==> r.0.performingAction && !r.0.isPaused && r.0.timeScale == s.prevTimeScale
                                 && r.1 == PauseEvents(moved, true, Some(name)))
  {
    if !decide then (s, PauseEvents(moved, false, None))
    else if s.current == Back then (SetVisible(s, false, false), PauseEvents(moved, true, None))
    else
      var (s3, ev) := PlayThenLoadScene(s, if s.current == Retry then cfg.retrySceneName else cfg.exitStageSceneName);
      (s3, ev.(selectSE := moved))
  }

  /** Update: blocked while an action is under way; otherwise toggle, and
      while shown count the stick frames, navigate, then decide. */
  function Update(st: PauseState, cfg: PauseConfig, input: PauseInput): (r: (PauseState, PauseEvents))
    ensures st.performingAction ==> r == (st, NoEvents)
    ensures !st.performingAction && !Toggle(st, input.toggle).visible ==> r == (Toggle(st, input.toggle), NoEvents)
    ensures !st.performingAction && Toggle(st, input.toggle).visible ==>
              var s1 := Toggle(st, input.toggle);
              var upOnce := if input.stickUp then s1.upOnce + 1 else 0;
              var downOnce := if input.stickDown then s1.downOnce + 1 else 0;
              var (item, moved) := Navigate(s1.current, input.upKey || upOnce == 1, input.downKey || downOnce == 1,
                                            input.reset);
              r == Decide(s1.(upOnce := upOnce, downOnce := downOnce, current := item), cfg, moved, input.decide)
  {
    if st.performingAction then (st, NoEvents)
    else
      var s1 := Toggle(st, input.toggle);
      if !s1.visible then (s1, NoEvents)
      else
        var upOnce := if input.stickUp then s1.upOnce + 1 else 0;
        var downOnce := if input.stickDown then s1.downOnce + 1 else 0;
        var (item, moved) := Navigate(s1.current, input.upKey || upOnce == 1, input.downKey || downOnce == 1, input.reset);
        Decide(s1.(upOnce := upOnce, downOnce := downOnce, current := item), cfg, moved, input.decide)
  }

  /** Opening the menu selects Back: with the default keys (Escape both
      toggles and resets) the frame that opens it keeps Back selected, and
      without other input that is all it does. */
  lemma OpeningSelectsBack(st: PauseState, cfg: PauseConfig)
    requires !st.visible && !st.performingAction
    ensures var r := Update(st, cfg, PauseInput(true, false, false, true, false, false, false));
            r.0.visible && r.0.isPaused && r.0.current == Back && r.0.timeScale == 0.0
            && r.0.prevTimeScale == st.timeScale && r.1 == NoEvents
  {
  }

  /** While the menu is shown the game is paused, and the other way round,
      unless a scene load is under way. */
  predicate PauseMatchesVisibility(st: PauseState)
  {
    st.performingAction || (st.visible <==> st.isPaused)
  }

  lemma UpdateKeepsPauseMatchesVisibility(st: PauseState, cfg: PauseConfig, input: PauseInput)
    requires PauseMatchesVisibility(st)
    ensures PauseMatchesVisibility(Update(st, cfg, input).0)
  {
  }

  /** Holding the stick up moves the selection only on the first frame:
      later frames with the stick still up and no key press leave it. */
  lemma StickHeldMovesOnce(st: PauseState, cfg: PauseConfig)
    requires st.visible && !st.performingAction && st.upOnce >= 1 && st.downOnce == 0
    ensures var input := PauseInput(false, false, false, false, false, true, false);
            Update(st, cfg, input).0 == st.(upOnce := st.upOnce + 1)
            && !Update(st, cfg, input).1.selectSE
  {
  }
}
