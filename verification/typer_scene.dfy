/** TyperScene: key-to-scene bindings; each frame the first non-null
    binding one of whose keys went down is loaded (or, if its scene cannot
    be resolved, nothing is), and later bindings are not looked at.  Keys
    are integer key codes and the keys that went down this frame are a
    set. */
module TyperScene {
  import opened Optional
  import opened SceneRef

  datatype Binding = Binding(scene: SceneSpec, keys: seq<int>, async: bool)

  /** IsTriggeredThisFrame: one of the binding's keys went down. */
  function IsTriggeredThisFrame(keys: seq<int>, down: set<int>): (b: bool)
    ensures b <==> exists i :: 0 <= i < |keys| && keys[i] in down
    decreases |keys|
  {
    if |keys| == 0 then false
    else if keys[0] in down then true
    else
      var rest := IsTriggeredThisFrame(keys[1..], down);
      assert forall i :: 1 <= i < |keys| ==> keys[i] == keys[1..][i - 1];
      rest
  }

  predicate Fires(bindings: seq<Option<Binding>>, down: set<int>, i: int)
  {
    0 <= i < |bindings| && bindings[i].Some? && IsTriggeredThisFrame(bindings[i].value.keys, down)
  }

  /** Update's scan: the index of the first non-null triggered binding, or
      -1 when there is none. */
  method FirstTriggered(bindings: seq<Option<Binding>>, down: set<int>) returns (index: int)
    ensures index == -1 <==> forall j :: 0 <= j < |bindings| ==> !Fires(bindings, down, j)
    ensures index != -1 ==> Fires(bindings, down, index) && forall j :: 0 <= j < index ==> !Fires(bindings, down, j)
  {
    var i := 0;
    while i < |bindings|
      invariant 0 <= i <= |bindings|
      invariant forall j :: 0 <= j < i ==> !Fires(bindings, down, j)
    {
      var b := bindings[i];
      if b.Some? && IsTriggeredThisFrame(b.value.keys, down) {
        assert Fires(bindings, down, i);
        return i;
      }
      i := i + 1;
    }
    return -1;
  }

  /** Update: the load request of the first triggered binding; at most one
      binding is attempted per frame, even when its scene does not
      resolve. */
  method Update(bindings: seq<Option<Binding>>, down: set<int>, can: string -> bool, sceneCount: int)
    returns (attempted: int, load: Option<LoadRequest>)
    ensures attempted == -1 ==> load.None? && forall j :: 0 <= j < |bindings| ==> !Fires(bindings, down, j)
    ensures attempted != -1 ==>
              Fires(bindings, down, attempted)
              && (forall j :: 0 <= j < attempted ==> !Fires(bindings, down, j))
              && load == Load(bindings[attempted].value.scene, bindings[attempted].value.async, can, sceneCount)
  {
    attempted := FirstTriggered(bindings, down);
    if attempted == -1 {
      load := None;
    } else {
      load := Load(bindings[attempted].value.scene, bindings[attempted].value.async, can, sceneCount);
    }
  }
}
