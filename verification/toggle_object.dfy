/** ToggleObject: the toggle key shows or hides a CanvasGroup. */
module ToggleObject {
  import opened Canvas
  import opened Optional

  /** SetVisible: the flag and the group's look. */
  function SetVisible(enable: bool): (r: (bool, Look))
    ensures r.0 == enable
    ensures r.1.alpha == 1.0 <==> enable
    ensures r.1.interactable == enable && r.1.blocksRaycasts == enable
  {
    (enable, LookFor(enable))
  }

  /** Awake: hidden. */
  function Awake(): (r: (bool, Look))
    ensures !r.0 && r.1.alpha == 0.0 && !r.1.interactable
  {
    SetVisible(false)
  }

  /** Update: the toggle key flips visibility; no key changes nothing
      (None: the group is not written). */
  function Update(visible: bool, toggleDown: bool): (r: (bool, Option<Look>))
    ensures toggleDown ==> r.0 == !visible && r.1 == Some(LookFor(!visible))
    ensures !toggleDown ==> r == (visible, None)
  {
    if toggleDown then
      var (v, look) := SetVisible(!visible);
      (v, Some(look))
    else (visible, None)
  }

  /** Two presses restore the visibility. */
  lemma TwoPressesRestore(visible: bool)
    ensures Update(Update(visible, true).0, true).0 == visible
  {
  }
}
