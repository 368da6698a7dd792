/** The CanvasGroup switching shared by the title and pause menus: a shown
    group is opaque and takes input, a hidden one is transparent and does
    not; the YES/NO pair shows the group of the current choice. */
module Canvas {

  datatype Look = Look(alpha: real, interactable: bool, blocksRaycasts: bool)

  /** alpha 1 / 0 with interactable and blocksRaycasts following. */
  function LookFor(enable: bool): (l: Look)
    ensures l.alpha == 1.0 <==> enable
    ensures l.alpha == 0.0 <==> !enable
    ensures l.interactable == enable && l.blocksRaycasts == enable
  {
    Look(if enable then 1.0 else 0.0, enable, enable)
  }

  /** The YES/NO menus' Visible enum. */
  datatype Choice = NoChoice | Yes | No

  /** SetGroupVisible: the looks of the YES and the NO group. */
  function GroupLooks(next: Choice): (r: (Look, Look))
    ensures r.0.alpha == 1.0 <==> next == Yes
    ensures r.1.alpha == 1.0 <==> next == No
    ensures r.0.interactable == r.0.blocksRaycasts && r.1.interactable == r.1.blocksRaycasts
    ensures r.0.interactable <==> next == Yes
    ensures r.1.interactable <==> next == No
  {
    (LookFor(next == Yes), LookFor(next == No))
  }

  /** For Yes or No exactly one group is shown, the one matching the
      choice; NoChoice shows neither. */
  lemma ExactlyOneGroupShown(next: Choice)
    ensures next == Yes ==> GroupLooks(next).0.alpha == 1.0 && GroupLooks(next).1.alpha == 0.0
    ensures next == No ==> GroupLooks(next).0.alpha == 0.0 && GroupLooks(next).1.alpha == 1.0
    ensures next == NoChoice ==> !GroupLooks(next).0.interactable && !GroupLooks(next).1.interactable
  {
  }
}
