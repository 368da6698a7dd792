/** A scene given by name or by build index, as EnterToScene and
    TyperScene bindings hold it, and its resolution against the build
    settings.  Application.CanStreamedLevelBeLoaded and
    SceneManager.sceneCountInBuildSettings are parameters; loading is an
    output request. */
module SceneRef {
  import opened Optional

  datatype SceneSpec = SceneSpec(useSceneName: bool, sceneName: string, sceneBuildIndex: int)

  datatype Resolved = ByName(name: string) | ByIndex(index: int)

  /** TryResolveScene: name mode needs a non-empty loadable name; index
      mode needs 0 <= index < scene count. */
  function TryResolveScene(spec: SceneSpec, canStreamedLevelBeLoaded: string -> bool, sceneCount: int)
    : (r: Option<Resolved>)
    ensures spec.useSceneName ==>
              (r.Some? <==> spec.sceneName != "" && canStreamedLevelBeLoaded(spec.sceneName))
              && (r.Some? ==> r.value == ByName(spec.sceneName))
    ensures !spec.useSceneName ==>
              (r.Some? <==> 0 <= spec.sceneBuildIndex < sceneCount)
              && (r.Some? ==> r.value == ByIndex(spec.sceneBuildIndex))
  {
    if spec.useSceneName then
      if spec.sceneName == "" then None
      else if !canStreamedLevelBeLoaded(spec.sceneName) then None
      else Some(ByName(spec.sceneName))
    else if spec.sceneBuildIndex < 0 || spec.sceneBuildIndex >= sceneCount then None
    else Some(ByIndex(spec.sceneBuildIndex))
  }

  /** A LoadScene or LoadSceneAsync call. */
  datatype LoadRequest = LoadRequest(scene: Resolved, async: bool)

  /** Load: nothing for an unresolvable scene; otherwise by name when the
      resolved name is non-empty, else by build index. */
  function Load(spec: SceneSpec, async: bool, canStreamedLevelBeLoaded: string -> bool, sceneCount: int)
    : (r: Option<LoadRequest>)
    ensures r.Some? <==> TryResolveScene(spec, canStreamedLevelBeLoaded, sceneCount).Some?
    ensures r.Some? ==> r.value == LoadRequest(TryResolveScene(spec, canStreamedLevelBeLoaded, sceneCount).value, async)
  {
    match TryResolveScene(spec, canStreamedLevelBeLoaded, sceneCount)
    case None => None
    case Some(ByName(name)) => Some(LoadRequest(ByName(name), async))
    case Some(ByIndex(index)) => Some(LoadRequest(ByIndex(index), async))
  }

  /** Name mode never asks for an index and index mode never for a name. */
  lemma ResolvedKindFollowsMode(spec: SceneSpec, can: string -> bool, sceneCount: int)
    ensures TryResolveScene(spec, can, sceneCount).Some? ==>
              (TryResolveScene(spec, can, sceneCount).value.ByName? <==> spec.useSceneName)
  {
  }
}
