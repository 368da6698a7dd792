/** ShowHoldObject: show a set of objects while a key (or either stick
    button) is held.  Objects are integer handles, a null entry is None,
    and `active` is the set of objects whose activeSelf is true. */
module ShowHold {
  import opened Optional

  /** The non-null entries of m_Targets (a null array is empty). */
  function Targets(targets: seq<Option<int>>): (t: set<int>)
    ensures forall x :: x in t <==> exists i :: 0 <= i < |targets| && targets[i] == Some(x)
  {
    set i | 0 <= i < |targets| && targets[i].Some? :: targets[i].value
  }

  /** SetActiveAll: every non-null target gets the given state and only
      the ones that differed are written; nothing else changes. */
  function SetActiveAll(targets: seq<Option<int>>, active: set<int>, on: bool): (r: (set<int>, set<int>))
    ensures forall x :: x in Targets(targets) ==> (x in r.0 <==> on)
    ensures forall x :: x !in Targets(targets) ==> (x in r.0 <==> x in active)
    ensures forall x :: x in r.1 <==> x in Targets(targets) && (x in active) != on
  {
    var t := Targets(targets);
    var written := if on then t - active else t * active;
    (if on then active + t else active - t, written)
  }

  /** A second SetActiveAll with the same state writes nothing. */
  lemma SetActiveAllIdempotent(targets: seq<Option<int>>, active: set<int>, on: bool)
    ensures var once := SetActiveAll(targets, active, on).0;
            SetActiveAll(targets, once, on) == (once, {})
  {
    var once := SetActiveAll(targets, active, on).0;
    var again := SetActiveAll(targets, once, on);
    assert again.0 == once;
    assert forall x :: x !in again.1;
    assert again.1 == {};
  }

  /** IsAnyActive: some non-null target is active (the loop returns at
      the first one). */
  function IsAnyActive(targets: seq<Option<int>>, active: set<int>): (b: bool)
    ensures b <==> exists i :: 0 <= i < |targets| && targets[i].Some? && targets[i].value in active
    decreases |targets|
  {
    if |targets| == 0 then false
    else if targets[0].Some? && targets[0].value in active then true
    else
      var rest := IsAnyActive(targets[1..], active);
      assert forall i :: 1 <= i < |targets| ==> targets[i] == targets[1..][i - 1];
      rest
  }

  /** Awake: with HideOnAwake every target is deactivated and the shown
      flag cleared; otherwise the flag is whether any target is active. */
  function Awake(hideOnAwake: bool, targets: seq<Option<int>>, active: set<int>): (r: (bool, set<int>, set<int>))
    ensures hideOnAwake ==> !r.0 && Targets(targets) * r.1 == {} && r.2 == Targets(targets) * active
    ensures !hideOnAwake ==> r.0 == IsAnyActive(targets, active) && r.1 == active && r.2 == {}
  {
    if hideOnAwake then
      var (a, written) := SetActiveAll(targets, active, false);
      (false, a, written)
    else (IsAnyActive(targets, active), active, {})
  }

  /** Update: the shown flag follows this frame's shouldShow; the targets
      are written only when it changes. */
  function Update(isShown: bool, targets: seq<Option<int>>, active: set<int>, shouldShow: bool)
    : (r: (bool, set<int>, set<int>))
    ensures r.0 == shouldShow
    ensures shouldShow == isShown ==> r.1 == active && r.2 == {}
    ensures shouldShow != isShown ==> (r.1, r.2) == SetActiveAll(targets, active, shouldShow)
  {
    if shouldShow != isShown then
      var (a, written) := SetActiveAll(targets, active, shouldShow);
      (shouldShow, a, written)
    else (isShown, active, {})
  }

  /** When the flag agrees with every target, an Update keeps them in
      agreement with the new flag. */
  predicate InSync(isShown: bool, targets: seq<Option<int>>, active: set<int>)
  {
    forall x :: x in Targets(targets) ==> (x in active <==> isShown)
  }

  lemma UpdateKeepsSync(isShown: bool, targets: seq<Option<int>>, active: set<int>, shouldShow: bool)
    requires InSync(isShown, targets, active)
    ensures var (s, a, _) := Update(isShown, targets, active, shouldShow);
            InSync(s, targets, a)
  {
  }

  lemma AwakeHiddenInSync(targets: seq<Option<int>>, active: set<int>)
    ensures var (s, a, _) := Awake(true, targets, active);
            InSync(s, targets, a)
  {
  }
}
