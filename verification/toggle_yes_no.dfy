/** ToggleYesNo: the always-on YES/NO selector of the exit menu.  The
    external TitleState.SHOW_EXIT_MENU flag is an input and an output;
    quitting is an output event. */
module ToggleYesNo {
  import opened Canvas

  datatype YesNoState = YesNoState(current: Choice, isExit: bool)

  predicate Consistent(st: YesNoState) { st.isExit <==> st.current == Yes }

  /** Awake: NO shown. */
  function Awake(): (st: YesNoState)
    ensures st.current == No && Consistent(st)
  {
    YesNoState(No, false)
  }

  /** Update: YES before NO before reset; then the exit key quits on YES
      and otherwise clears the exit-menu flag. */
  function Update(st: YesNoState, yesDown: bool, noDown: bool, resetDown: bool, exitDown: bool,
                  showExitMenu: bool): (r: (YesNoState, bool, bool))
    ensures yesDown ==> r.0 == YesNoState(Yes, true)
    ensures !yesDown && (noDown || resetDown) ==> r.0 == YesNoState(No, false)
    ensures !yesDown && !noDown && !resetDown ==> r.0 == st
    ensures r.1 <==> exitDown && r.0.isExit
    ensures r.2 == (if exitDown && !r.0.isExit then false else showExitMenu)
    ensures Consistent(st) ==> Consistent(r.0)
  {
    var s := if yesDown then YesNoState(Yes, true)
             else if noDown then YesNoState(No, false)
             else if resetDown then YesNoState(No, false)
             else st;
    var quit := s.isExit && exitDown;
    var show := if !s.isExit && exitDown then false else showExitMenu;
    (s, quit, show)
  }

  /** Within one frame YES wins over NO and reset. */
  lemma YesWins(st: YesNoState, exitDown: bool, show: bool)
    ensures Update(st, true, true, true, exitDown, show) == Update(st, true, false, false, exitDown, show)
  {
  }

  /** Pressing YES then exit quits; pressing NO then exit closes the menu. */
  lemma ChooseThenExit(st: YesNoState, show: bool)
    ensures var s := Update(st, true, false, false, false, show).0;
            Update(s, false, false, false, true, show).1
    ensures var s := Update(st, false, true, false, false, show).0;
            !Update(s, false, false, false, true, show).1 && !Update(s, false, false, false, true, show).2
  {
  }
}
