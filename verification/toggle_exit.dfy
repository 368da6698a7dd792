/** ToggleExit: the title's exit menu.  Escape or Start toggles it; while
    shown, left/right (or the stick) choose YES/NO, reset chooses NO, and
    decide quits on YES or closes the menu on NO.  SE and quitting are
    output events. */
module ToggleExit {
  import opened Canvas

  datatype ExitConfig = ExitConfig(waitDecideSEBeforeQuit: bool, hasDecideSE: bool)

  datatype ExitState = ExitState(visible: bool, current: Choice, isExit: bool)

  /** toggle: GetKeyDown(toggleKey) or Start; reset: GetKeyDown(resetKey)
      or Start; decide: GetKeyDown(exitKey) or A. */
  datatype ExitInput = ExitInput(toggle: bool, yesKey: bool, stickLeft: bool, noKey: bool, stickRight: bool,
                                 reset: bool, decide: bool)

  datatype Quit = NoQuit | QuitNow | QuitAfterSE

  datatype ExitEvents = ExitEvents(selectSE: bool, decideSE: bool, quit: Quit)

  const NoEvents := ExitEvents(false, false, NoQuit)

  /** The quit flag is set exactly when YES is chosen. */
  predicate Consistent(st: ExitState) { st.isExit <==> st.current == Yes }

  /** Awake: hidden, NO chosen. */
  function Awake(): (st: ExitState)
    ensures !st.visible && st.current == No && Consistent(st)
  {
    ExitState(false, No, false)
  }

  /** The choice step (only while shown): YES first, then NO, then reset.
      Choosing the current item again changes nothing and plays nothing. */
  function Choose(st: ExitState, input: ExitInput): (r: (ExitState, bool))
    ensures r.0.visible == st.visible
    ensures (input.yesKey || input.stickLeft) ==>
              (st.current != Yes ==> r == (st.(current := Yes, isExit := true), true))
              && (st.current == Yes ==> r == (st, false))
    ensures !(input.yesKey || input.stickLeft) && (input.noKey || input.stickRight) ==>
              (st.current != No ==> r == (st.(current := No, isExit := false), true))
              && (st.current == No ==> r == (st, false))
    ensures !(input.yesKey || input.stickLeft) && !(input.noKey || input.stickRight) && input.reset ==>
              r == (st.(current := No, isExit := false), false)
    ensures !(input.yesKey || input.stickLeft || input.noKey || input.stickRight || input.reset) ==> r == (st, false)
    ensures Consistent(st) ==> Consistent(r.0)
  {
    if input.yesKey || input.stickLeft then
      if st.current != Yes then (st.(current := Yes, isExit := true), true) else (st, false)
    else if input.noKey || input.stickRight then
      if st.current != No then (st.(current := No, isExit := false), true) else (st, false)
    else if input.reset then
      (st.(current := No, isExit := false), false)
    else (st, false)
  }

  /** Update: toggle; nothing more while hidden; choose; decide. */
  function Update(st: ExitState, cfg: ExitConfig, input: ExitInput): (r: (ExitState, ExitEvents))
    ensures var v := st.visible != input.toggle;
            (!v ==> r == (st.(visible := false), NoEvents))
            && (v ==> var (chosen, se) := Choose(st.(visible := true), input);
                      r.1.selectSE == se
                      && (!input.decide ==> r == (chosen, ExitEvents(se, false, NoQuit)))
                      && (input.decide && chosen.isExit ==>
                            r.0 == chosen && r.1.decideSE
                            && r.1.quit == (if cfg.waitDecideSEBeforeQuit && cfg.hasDecideSE then QuitAfterSE else QuitNow))
                      && (input.decide && !chosen.isExit ==>
                            r.0 == chosen.(visible := false) && r.1 == ExitEvents(se, true, NoQuit)))
    ensures Consistent(st) ==> Consistent(r.0)
    ensures r.1.quit != NoQuit ==> Consistent(st) ==> r.0.current == Yes
  {
    var s1 := if input.toggle then st.(visible := !st.visible) else st;
    if !s1.visible then (s1, NoEvents)
    else
      var (chosen, se) := Choose(s1, input);
      if !input.decide then (chosen, ExitEvents(se, false, NoQuit))
      else if chosen.isExit then
        (chosen, ExitEvents(se, true, if cfg.waitDecideSEBeforeQuit && cfg.hasDecideSE then QuitAfterSE else QuitNow))
      else (chosen.(visible := false), ExitEvents(se, true, NoQuit))
  }

  /** The shown group always matches the choice. */
  lemma GroupMatchesChoice(st: ExitState, cfg: ExitConfig, input: ExitInput)
    requires st.current != NoChoice
    ensures var c := Update(st, cfg, input).0.current;
            c != NoChoice && (GroupLooks(c).0.alpha == 1.0 <==> c == Yes) && (GroupLooks(c).1.alpha == 1.0 <==> c == No)
  {
  }
}
