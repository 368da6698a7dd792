/** EnterToScene: on Enter (or A), load the scene of a binding whose
    target is within its radius of the base model: the first such binding,
    or the nearest one. */
module EnterToScene {
  import opened Geometry
  import opened Optional
  import opened SceneRef

  /** A binding: the target's position (None for a missing Transform), the
      configured radius, the scene. */
  datatype TargetBinding = TargetBinding(target: Option<Vec3>, radiusMeters: real, scene: SceneSpec)

  /** A non-positive radius counts as 0.5. */
  function Radius(b: TargetBinding): (r: real)
    ensures r > 0.0
    ensures b.radiusMeters > 0.0 ==> r == b.radiusMeters
  {
    if b.radiusMeters <= 0.0 then 0.5 else b.radiusMeters
  }

  function SqDistance(basePos: Vec3, b: TargetBinding): real
    requires b.target.Some?
  {
    SqrMagnitude(Sub(basePos, b.target.value))
  }

  /** The base is within the binding's radius of its target. */
  predicate Within(basePos: Vec3, b: TargetBinding)
  {
    b.target.Some? && SqDistance(basePos, b) <= Radius(b) * Radius(b)
  }

  /** Binding i is non-null, has a target, and the base is within its radius. */
  predicate IsHit(basePos: Vec3, bindings: seq<Option<TargetBinding>>, i: int)
  {
    0 <= i < |bindings| && bindings[i].Some? && Within(basePos, bindings[i].value)
  }

  /** The squared distance of binding i (0 when it has no target). */
  function Sq(basePos: Vec3, bindings: seq<Option<TargetBinding>>, i: int): real
  {
    if 0 <= i < |bindings| && bindings[i].Some? && bindings[i].value.target.Some?
    then SqDistance(basePos, bindings[i].value) else 0.0
  }

  /** The first-hit scan. */
  method FirstHitIndex(p: Vec3, bindings: seq<Option<TargetBinding>>) returns (index: int)
    ensures index == -1 <==> forall j :: 0 <= j < |bindings| ==> !IsHit(p, bindings, j)
    ensures index >= 0 ==> IsHit(p, bindings, index) && forall j :: 0 <= j < index ==> !IsHit(p, bindings, j)
    ensures index >= -1
  {
    index := -1;
    var i := 0;
    while i < |bindings|
      invariant 0 <= i <= |bindings|
      invariant index == -1 <==> forall j :: 0 <= j < i ==> !IsHit(p, bindings, j)
      invariant index >= 0 ==> index < i && IsHit(p, bindings, index)
      invariant index >= 0 ==> forall j :: 0 <= j < index ==> !IsHit(p, bindings, j)
      invariant index >= -1
    {
      var b := bindings[i];
      assert IsHit(p, bindings, i) <==> b.Some? && Within(p, b.value);
      if b.Some? && Within(p, b.value) {
        if index < 0 {
          index := i;
        }
      }
      i := i + 1;
    }
  }

  /** The nearest-hit scan: strict < keeps the earliest of equal distances. */
  method NearestHitIndex(p: Vec3, bindings: seq<Option<TargetBinding>>) returns (index: int)
    ensures index == -1 <==> forall j :: 0 <= j < |bindings| ==> !IsHit(p, bindings, j)
    ensures index >= 0 ==> IsHit(p, bindings, index)
    ensures index >= 0 ==> forall j :: IsHit(p, bindings, j) ==>
              Sq(p, bindings, index) < Sq(p, bindings, j) || (Sq(p, bindings, index) == Sq(p, bindings, j) && index <= j)
    ensures index >= -1
  {
    index := -1;
    var i := 0;
    while i < |bindings|
      invariant 0 <= i <= |bindings|
      invariant index == -1 <==> forall j :: 0 <= j < i ==> !IsHit(p, bindings, j)
      invariant index >= 0 ==> index < i && IsHit(p, bindings, index)
      invariant index >= 0 ==> forall j :: 0 <= j < i && IsHit(p, bindings, j) ==>
                  Sq(p, bindings, index) < Sq(p, bindings, j) || (Sq(p, bindings, index) == Sq(p, bindings, j) && index <= j)
      invariant index >= -1
    {
      var b := bindings[i];
      assert IsHit(p, bindings, i) <==> b.Some? && Within(p, b.value);
      if b.Some? && Within(p, b.value) {
        var sq := SqDistance(p, b.value);
        if index < 0 || sq < Sq(p, bindings, index) {
          index := i;
        }
      }
      i := i + 1;
    }
  }

  /** Hit i is the one the configured scan picks: with PreferNearest a hit
      of least squared distance, the earliest among equals; otherwise the
      first hit. */
  predicate Chosen(p: Vec3, bindings: seq<Option<TargetBinding>>, preferNearest: bool, i: int)
  {
    IsHit(p, bindings, i)
    && (if preferNearest then
          forall j :: 0 <= j < |bindings| && IsHit(p, bindings, j) ==>
            Sq(p, bindings, i) < Sq(p, bindings, j) || (Sq(p, bindings, i) == Sq(p, bindings, j) && i <= j)
        else
          forall j :: 0 <= j < i ==> !IsHit(p, bindings, j))
  }

  /** At most one hit is the chosen one, so Chosen pins the loaded binding. */
  lemma ChosenUnique(p: Vec3, bindings: seq<Option<TargetBinding>>, preferNearest: bool, i: int, k: int)
    requires Chosen(p, bindings, preferNearest, i) && Chosen(p, bindings, preferNearest, k)
    ensures i == k
  {
  }

  /** FindHitBindingIndex: -1 without a base model or bindings, or with no
      hit; otherwise the first hit, or with PreferNearest a hit of least
      squared distance, the earliest among equals. */
  method FindHitBindingIndex(basePos: Option<Vec3>, bindings: seq<Option<TargetBinding>>, preferNearest: bool)
    returns (index: int)
    ensures basePos.None? ==> index == -1
    ensures basePos.Some? ==> (index >= 0 <==> exists i :: IsHit(basePos.value, bindings, i))
    ensures index >= 0 ==> basePos.Some? && Chosen(basePos.value, bindings, preferNearest, index)
    ensures index < 0 ==> index == -1
  {
    if basePos.None? || |bindings| == 0 {
      return -1;
    }
    if preferNearest {
      index := NearestHitIndex(basePos.value, bindings);
    } else {
      index := FirstHitIndex(basePos.value, bindings);
    }
  }

  /** The Enter press of this frame: Enter or A, or keypad Enter when it is
      accepted. */
  predicate EnterPressed(enterDown: bool, aDown: bool, keypadEnterDown: bool, acceptKeypadEnter: bool)
  {
    enterDown || aDown || (acceptKeypadEnter && keypadEnterDown)
  }

  /** Update: on an Enter press with a base model and some hit, the chosen
      hit's scene is loaded (no request when it does not resolve);
      otherwise nothing is loaded. */
  method Update(basePos: Option<Vec3>, bindings: seq<Option<TargetBinding>>, preferNearest: bool, async: bool,
                enterDown: bool, aDown: bool, keypadEnterDown: bool, acceptKeypadEnter: bool,
                can: string -> bool, sceneCount: int)
    returns (load: Option<LoadRequest>)
    ensures !EnterPressed(enterDown, aDown, keypadEnterDown, acceptKeypadEnter) || basePos.None?
            || (forall i :: !IsHit(basePos.value, bindings, i))
            ==> load.None?
    ensures EnterPressed(enterDown, aDown, keypadEnterDown, acceptKeypadEnter) && basePos.Some?
            && (exists i :: IsHit(basePos.value, bindings, i))
            ==> exists i :: Chosen(basePos.value, bindings, preferNearest, i)
                            && load == Load(bindings[i].value.scene, async, can, sceneCount)
  {
    var pressed := enterDown || aDown;
    if !pressed && acceptKeypadEnter {
      pressed := pressed || keypadEnterDown;
    }
    if !pressed {
      return None;
    }
    var index := FindHitBindingIndex(basePos, bindings, preferNearest);
    if index < 0 {
      return None;
    }
    load := Load(bindings[index].value.scene, async, can, sceneCount);
  }
}
