# MirrororriM core, modelled in Dafny

MirrororriM is a Unity puzzle game about mirrors. The player moves and turns
mirrors until stage conditions are met. Colliders and objects switch on and off
in response, a cat walks to its goal, and menus pick the next scene. This
project models the game's deterministic logic as pure per-frame step
functions: `(state, inputs) -> (state, effects)`.

Everything the engine does at the edges becomes explicit in the model:

- **Engine reads are inputs.** Key and stick polling, transforms, `Time.deltaTime`,
  `Time.frameCount` and build-settings checks arrive as parameters.
- **Engine writes are output events.** Sound effects, scene loads, `Application.Quit`
  and render calls are recorded in returned records; the model never performs them.

The modules follow the source files:

- `Geometry`, `Angles`: vectors over the reals and the `Mathf` helpers
  (`Clamp`, `Sign`, `Repeat`, `DeltaAngle`). `Repeat` and `DeltaAngle` are
  defined exactly with `.Floor`.
- `ReflectionProbe`, `KeywordBinder`, `Mirror`: planar-reflection bookkeeping
  and reflection algebra.
- `CollisionRules`, `StageRules`, `StageTable`, `Toggles`, `LockToggle`:
  the rule engines of `CollisionManager`, `CollisionManager2`, `STAGE_STATE`
  and `NewCollisionManager`. `Toggles` holds the parts the two collision
  managers share: default cache, stop-after-apply, desired state and
  change-only writes.
- `Locker`, `ClampMover`, `StageRotator`, `Goal`: `ObjectLocker`,
  `ObjectClampMover`, `StageRotate` and `CatGoal`.
- `Directions`, `Pad`, `SpriteMover`, `CatSelect`, `HoldLoad`, `ShowHold`:
  the input state machines.
- `Pause`, `TripleSelect`, `Canvas`, `ToggleExit`, `ToggleYesNo`,
  `ToggleObject`, `PressAnyButton`, `SceneRef`, `EnterToScene`, `TyperScene`,
  `BackgroundFade`: the menus and scene selectors.

Floats are exact reals. Unity objects are integer handles. A destroyed or
unassigned object is one missing from an `alive` set, or a `None`.

## Model

| member | source | states |
|---|---|---|
| Angles.Repeat | Assets/Scripts/Game/Mirror/ObjectClampMover.cs:318 | the result lies in [0, length) and differs from t by a whole number of lengths |
| Angles.DeltaAngle | Assets/Scripts/Game/CollisionManager.cs:78-81 | the result lies in (-180, 180] and names the same direction as target - current |
| Angles.ToSigned180 | Assets/Scripts/Game/CollisionManager.cs:78-81 | AngleRange.ToSigned180 returns the unique signed representative of the angle's direction |
| Angles.ToSigned180Idempotent | Assets/Scripts/Game/CollisionManager.cs:56-58 | normalizing an angle that is already signed changes nothing |
| Angles.DeltaAngleZeroIff | Assets/Scripts/Game/CollisionManager.cs:60-64 | DeltaAngle is zero exactly when the two angles name the same direction |
| Angles.DeltaAngleInvariant | Assets/Scripts/Game/CollisionManager2.cs:84-99 | DeltaAngle depends only on the directions of its arguments, so the signed pre-normalization cannot change a comparison |
| ReflectionProbe.CheckCamera | Assets/URP/PlanarReflectionsProbe.cs:133-139 | reflection cameras are always skipped; scene-view cameras are skipped iff renderInEditor is off or they are ignored; other cameras are skipped iff ignored |
| ReflectionProbe.RemoveFirst | Assets/URP/PlanarReflectionsProbe.cs:303 | ArrayList.Remove drops exactly one occurrence when present, keeps every other element, and adds none |
| ReflectionProbe.RemoveFirstKeepsNoDuplicates | Assets/URP/PlanarReflectionsProbe.cs:299-305 | removing from a duplicate-free list leaves it duplicate-free, without the removed camera |
| ReflectionProbe.IgnoreCamera | Assets/URP/PlanarReflectionsProbe.cs:291-297 | the ignore list gains the camera, keeps no duplicates, and is unchanged when the camera is already present |
| ReflectionProbe.UnignoreCamera | Assets/URP/PlanarReflectionsProbe.cs:299-305 | the ignore list loses the camera and keeps every other member |
| ReflectionProbe.ClearIgnoredList | Assets/URP/PlanarReflectionsProbe.cs:307-310 | no camera remains ignored |
| ReflectionProbe.IsIgnoring | Assets/URP/PlanarReflectionsProbe.cs:312-315 | membership in the ignore list |
| ReflectionProbe.IgnoreThenUnignore | Assets/URP/PlanarReflectionsProbe.cs:291-305 | ignoring a camera that was not ignored and then un-ignoring it restores the list exactly |
| ReflectionProbe.RemoveFirstAppend | Assets/URP/PlanarReflectionsProbe.cs:291-305 | removing the element just appended to a list that lacks it gives the list back |
| ReflectionProbe.IgnoreControlsFilter | Assets/URP/PlanarReflectionsProbe.cs:291-315 | a game camera is skipped after IgnoreCamera and not skipped after UnignoreCamera or ClearIgnoredList |
| ReflectionProbe.TargetSize | Assets/URP/PlanarReflectionsProbe.cs:190-191 | the render-target size is the truncation of pixels * quality |
| ReflectionProbe.CreateRenderTexture | Assets/URP/PlanarReflectionsProbe.cs:188-209 | the cached texture is reused iff one exists with both sizes matching; otherwise a texture with the fresh handle replaces it (the old one, if any, is released); one entry per camera, others unchanged |
| ReflectionProbe.CreateRenderTextureReuses | Assets/URP/PlanarReflectionsProbe.cs:193-208 | a second request for the same camera at the same size reuses the texture and releases nothing |
| ReflectionProbe.GetTransformAxisVector | Assets/URP/PlanarReflectionsProbe.cs:245-254 | Up, Right and Forward select the matching transform axis |
| ReflectionProbe.GetBaseAxisVector | Assets/URP/PlanarReflectionsProbe.cs:256-265 | the world axis for each choice, a unit vector agreeing with the transform-axis choice for an unrotated transform |
| ReflectionProbe.GetNormal | Assets/URP/PlanarReflectionsProbe.cs:214-243 | TransformAxis mode returns the chosen axis; the custom modes return up when the vector is zero under Vector3's approximate == (squared length below 1e-10), a unit vector along it when it is longer than the 1e-5 cut-off, and zero at exactly the cut-off; CustomVector without useCustomNormal returns transform.forward |
| ReflectionProbe.ProbePosition | Assets/URP/PlanarReflectionsProbe.cs:269-273 | the probe is placed at the camera position mirrored across the reflecting plane: with a unit normal its signed distance from the plane is the camera's negated (on-plane and involution facts are the two lemmas below) |
| ReflectionProbe.ProbePositionOnPlane | Assets/URP/PlanarReflectionsProbe.cs:271-272 | a camera lying on the plane is placed at its own position |
| ReflectionProbe.ProbePositionMirrors | Assets/URP/PlanarReflectionsProbe.cs:271-272 | with a unit normal the probe is on the other side of the plane at the same distance, and mirroring twice gives the camera position back |
| ReflectionProbe.TexName | Assets/URP/PlanarReflectionsProbe.cs:159-160 | the published name is "_PlanarReflectionsTex" followed by the slot digit 1..4 |
| ReflectionProbe.TexNameInjective | Assets/URP/PlanarReflectionsProbe.cs:159-160 | distinct slots publish under distinct names |
| ReflectionProbe.PreRender | Assets/URP/PlanarReflectionsProbe.cs:141-161 | a skipped camera changes nothing; otherwise the probe exists, the camera's texture is cached at the target size, the probe is mirrored across the plane and the slot name is published |
| ReflectionProbe.MatchingFrom | Assets/URP/PlanarReflectionsProbe.cs:317-329 | the indices of the probes with the given ID, strictly ascending, each matching, none missed |
| ReflectionProbe.FindProbesRenderingTo | Assets/URP/PlanarReflectionsProbe.cs:317-329 | exactly the probes with the given ID, none added |
| ReflectionProbe.FindProbesIsOrderedFilter | Assets/URP/PlanarReflectionsProbe.cs:317-329 | the list is the ordered filter: its k-th element is the probe at the k-th matching index, so each match appears once, in discovery order |
| ReflectionProbe.FindProbeRenderingTo | Assets/URP/PlanarReflectionsProbe.cs:331-342 | None iff no probe has the ID; otherwise the first probe with that ID, which is the head of the list lookup |
| ReflectionProbe.FindProbeIsFirstOfList | Assets/URP/PlanarReflectionsProbe.cs:317-342 | the first matching index starts the matching indices, and its probe heads the list lookup |
| KeywordBinder.KeysDistinct | Assets/Scripts/Game/Mirror/PlanarProbeKeywordBinder.cs:19 | the four slot keywords are distinct |
| KeywordBinder.ApplyKeys | Assets/Scripts/Game/Mirror/PlanarProbeKeywordBinder.cs:20-24 | the loop leaves every keyword outside the processed prefix as it was |
| KeywordBinder.ApplyKeysDecides | Assets/Scripts/Game/Mirror/PlanarProbeKeywordBinder.cs:20-24 | after the loop, key i is enabled iff i is the slot's index |
| KeywordBinder.Apply | Assets/Scripts/Game/Mirror/PlanarProbeKeywordBinder.cs:13-25 | with no material nothing changes; otherwise key i is on iff i == (int)slot, and keywords other than the four are untouched |
| KeywordBinder.ApplyEnablesExactlyOne | Assets/Scripts/Game/Mirror/PlanarProbeKeywordBinder.cs:19-24 | exactly one of the four keywords is enabled after Apply |
| KeywordBinder.ApplyIdempotent | Assets/Scripts/Game/Mirror/PlanarProbeKeywordBinder.cs:13-25 | applying twice with the same slot equals applying once |
| Mirror.PlaneThrough | Assets/Scripts/Game/Mirror.cs:86 | new Plane(normal, point) keeps the normal and puts the point on the plane |
| Mirror.CalcReflectionMatrix | Assets/Scripts/Game/Mirror.cs:114-139 | as written: bottom row (0,0,0,1), symmetric 3x3 block I - 2nn^T, translation column -2 n_i d with d = -distance |
| Mirror.ReflectionMatrix | Assets/Scripts/Game/Mirror.cs:114-139 | the corrected matrix: the same block, translation column -2 n_i distance |
| Mirror.ReflectionWithApply | Assets/Scripts/Game/Mirror.cs:114-139 | the entry pattern of the matrix, with translation term t, maps every point x to x - 2 (n . x + t) n |
| Mirror.ReflectionMatrixReflects | Assets/Scripts/Game/Mirror.cs:84-89 | the corrected matrix maps every point to its mirror image across the mirror plane |
| Mirror.ReflectionMatrixFixesPlane | Assets/Scripts/Game/Mirror.cs:84-89 | the corrected matrix leaves every point of the mirror plane in place |
| Mirror.CalcReflectionMatrixMovesPlanePoint | Assets/Scripts/Game/Mirror.cs:114-139 | the matrix as written moves the mirror's own position by -4 n (n . pos), so it fixes that point iff the plane passes through the origin |
| Mirror.ReflectionWithInvolution | Assets/Scripts/Game/Mirror.cs:114-139 | both versions are involutions for a unit normal |
| Mirror.ObliqueScale | Assets/Scripts/Game/Mirror.cs:144-150 | the scale 2 / dot(plane, q) is non-zero and brings the plane's product with q to 2 |
| Mirror.CalculateObliqueMatrix | Assets/Scripts/Game/Mirror.cs:142-157 | only row 2 changes; it becomes plane * k with 1 added to the z entry |
| Mirror.ObliquePlaneIsNear | Assets/Scripts/Game/Mirror.cs:142-157 | with a perspective bottom row, a view-space point on the clip plane lands on the near plane (clip z = -w) |
| Mirror.LateUpdate | Assets/Scripts/Game/Mirror.cs:74-109 | without a main or mirror camera nothing happens; otherwise culling inversion is switched on, the mirror renders, inversion is switched off, an orthographic source is copied with its size, the projection is the source projection times the oblique matrix for the mirror plane, and the view is `CalcReflectionMatrix(plane)` times the source view, as written (both are findings) |
| Mirror.MirrorView | Assets/Scripts/Game/Mirror.cs:89 | the corrected view (source view times the reflection) keeps an affine bottom row |
| Mirror.MulApplyPoint | Assets/Scripts/Game/Mirror.cs:89 | applying a product with an affine right factor to a point applies the right factor first, then the left |
| Mirror.MirrorViewSeesReflection | Assets/Scripts/Game/Mirror.cs:84-89 | the corrected view maps the mirror image of every world point to where the source view maps the point itself |
| Mirror.MirrorViewCameraIsReflected | Assets/Scripts/Game/Mirror.cs:84-89 | the corrected view puts the mirror camera at the reflection of the source camera |
| Mirror.ProgramView | Assets/Scripts/Game/Mirror.cs:89 | the view the program builds, reflection on the left: it keeps the source view's bottom row, and its eye is characterised by ProgramViewKeepsCamera |
| Mirror.ProgramViewKeepsCamera | Assets/Scripts/Game/Mirror.cs:89 | as written, for a mirror plane through the origin, the mirror view still has its eye at the source camera's position |
| Mirror.ReflectMovesOffPlane | Assets/Scripts/Game/Mirror.cs:84-86 | the reflection fixes a point iff the point lies on the mirror plane, so a camera off the plane must move |
| Mirror.ProgramViewCounterexample | Assets/Scripts/Game/Mirror.cs:89 | mirror plane z = 0, camera at (0, 0, 5): the program's view keeps the eye at (0, 0, 5) |
| Mirror.MirrorViewExample | Assets/Scripts/Game/Mirror.cs:89 | for the same input the corrected view has its eye at (0, 0, -5) |
| Mirror.ReflectedViewMatchesProgram | Assets/Scripts/Game/Mirror.cs:114-139 | correcting only the sign of the translation (same operand order as line 89) leaves the view of an affine source view unchanged iff the mirror plane passes through the world origin |
| Mirror.TranslationDifference | Assets/Scripts/Game/Mirror.cs:114-139 | flipping the sign of the translation term changes the product with an affine view only in its translation column, by 4 n_i t |
| CollisionRules.FloatContains | Assets/Scripts/Game/CollisionManager.cs:20-32 | a disabled range contains everything; an enabled one tests v in [min(Min,Max) - eps, max(Min,Max) + eps] |
| CollisionRules.FloatContainsSwap | Assets/Scripts/Game/CollisionManager.cs:25-30 | swapping Min and Max does not change the answer |
| CollisionRules.AngleContains | Assets/Scripts/Game/CollisionManager.cs:52-76 | disabled contains all; equal signed bounds accept only the same direction; min < max is a closed interval; min > max is the wrap-around union |
| CollisionRules.SingleAngleMatch | Assets/Scripts/Game/CollisionManager.cs:60-64 | the degenerate test abs(DeltaAngle(a, min)) <= 0 holds iff the angle names min's direction |
| CollisionRules.ToSigned180Periodic | Assets/Scripts/Game/CollisionManager.cs:78-81 | ToSigned180 agrees on angles that name the same direction |
| CollisionRules.AngleContainsPeriodic | Assets/Scripts/Game/CollisionManager.cs:52-76 | range membership does not change when a full turn is added |
| CollisionRules.PositionSatisfied | Assets/Scripts/Game/CollisionManager.cs:113-134 | a disabled condition holds; an enabled one with no active axis fails; otherwise all three axis ranges must contain the position |
| CollisionRules.EulerSatisfied | Assets/Scripts/Game/CollisionManager.cs:152-178 | a disabled condition holds; an enabled one with no active axis fails |
| CollisionRules.EulerSatisfiedOnRaw | Assets/Scripts/Game/CollisionManager.cs:157-177 | with an active axis the condition equals the range test on the raw 0..360 angles |
| CollisionRules.ConditionPosition | Assets/Scripts/Game/CollisionManager.cs:118 | without a Space transform the world position is used |
| CollisionRules.Evaluate | Assets/Scripts/Game/CollisionManager.cs:202-220 | false when neither condition is enabled; otherwise the conjunction of both conditions |
| CollisionRules.NoActiveAxisNeverMatches | Assets/Scripts/Game/CollisionManager.cs:115-116 | a rule whose enabled position condition has no active axis never matches |
| CollisionRules.RuleGroups | Assets/Scripts/Game/CollisionManager.cs:274-283 | every non-null rule contributes its enable and its disable group to the cache |
| CollisionRules.CacheDefaultStates | Assets/Scripts/Game/CollisionManager.cs:256-285 | the cache holds exactly the live members of the rules' groups, each with its state at caching time |
| CollisionRules.Update | Assets/Scripts/Game/CollisionManager.cs:327-489 | matched rules honour StopAfterApply per mirror; disable beats enable; untouched cached objects revert to their defaults; only objects whose state differs are written |
| Toggles.CacheToggleGroup | Assets/Scripts/Game/CollisionManager.cs:287-325 | live group members not yet cached record their current state; entries already cached keep their first-seen value |
| Toggles.CacheGroups | Assets/Scripts/Game/CollisionManager2.cs:141-190 | after all groups, the cache holds the old keys plus every live member of any group; first-seen values win |
| Toggles.CacheDefaultStatesRecordsCurrent | Assets/Scripts/Game/CollisionManager2.cs:171-187 | filling an empty cache records exactly the live members, each with its current state |
| Toggles.FirstStop | Assets/Scripts/Game/CollisionManager.cs:367-370 | the index of the first evaluated, matching StopAfterApply rule, or -1 when there is none |
| Toggles.MatchFlags | Assets/Scripts/Game/CollisionManager.cs:352-380 | rule r is matched iff it was evaluated, matched, and does not come after the first stopping rule |
| Toggles.FirstStopPrefix | Assets/Scripts/Game/CollisionManager.cs:355-371 | the loop's firstStopIndex update computes FirstStop of the longer prefix |
| Toggles.FirstStopUnique | Assets/Scripts/Game/CollisionManager.cs:367-370 | the first stopping index is uniquely determined |
| Toggles.SetGroup | Assets/Scripts/Game/CollisionManager.cs:408-430 | every live member of the group gets the value; all other entries are kept |
| Toggles.SetGroups | Assets/Scripts/Game/CollisionManager.cs:400-431 | every live member of any group gets the value; all other entries are kept |
| Toggles.Desired | Assets/Scripts/Game/CollisionManager.cs:394-465 | desired starts from the defaults; members of a matched disable group are off, even when also enabled; other enabled members are on; the rest keep their default |
| Toggles.ApplyDesired | Assets/Scripts/Game/CollisionManager.cs:468-488 | every live desired object ends at its desired state; others are unchanged; exactly the objects whose state changes are written |
| Toggles.ApplyDesiredIdempotent | Assets/Scripts/Game/CollisionManager2.cs:283-303 | applying the same desired state a second time writes nothing |
| Toggles.Matched | Assets/Scripts/Game/CollisionManager.cs:383-389 | the collected rules are exactly the non-null rules whose flag is set |
| Toggles.Evals | Assets/Scripts/Game/CollisionManager.cs:355-365 | null rules are not evaluated; every other rule records its match and its StopAfterApply flag |
| Toggles.MatchedRules | Assets/Scripts/Game/CollisionManager.cs:337-390 | a rule is collected iff its mirror entry is assigned and it is matched after stop-after-apply within that mirror |
| Toggles.GroupsOf | Assets/Scripts/Game/CollisionManager.cs:400-465 | one selected group per matched rule, in order |
| Toggles.TouchedIsInAny | Assets/Scripts/Game/CollisionManager.cs:400-465 | being in a matched rule's group is membership in the list of selected groups |
| StageRules.AngleClose | Assets/Scripts/Game/CollisionManager2.cs:96-99 | one axis of the rotation test, stated without the signed pre-normalization |
| StageRules.SignedDeltaSame | Assets/Scripts/Game/CollisionManager2.cs:84-99 | normalizing both angles first does not change their DeltaAngle |
| StageRules.IsStageMatch | Assets/Scripts/Game/CollisionManager2.cs:67-113 | an unresolved stage never matches; otherwise all three position axes within PositionEpsilon and all three angle differences within AngleEpsilonDeg |
| StageRules.ExactPoseMatches | Assets/Scripts/Game/CollisionManager2.cs:67-113 | a mirror at a stage's position, turned by whole turns from its rotation, matches that stage |
| StageRules.Evaluate | Assets/Scripts/Game/CollisionManager2.cs:50-65 | an empty stage list never matches; a rule matches iff some stage condition matches |
| StageRules.AnyStage | Assets/Scripts/Game/CollisionManager2.cs:57-64 | the OR loop from index i on finds a matching stage iff one exists |
| StageRules.RuleGroups | Assets/Scripts/Game/CollisionManager2.cs:153-157 | every non-null rule contributes its disable group to the cache |
| StageRules.CacheDefaultStates | Assets/Scripts/Game/CollisionManager2.cs:141-159 | the cache holds exactly the live members of the rules' disable groups, with their state at caching time |
| StageRules.Update | Assets/Scripts/Game/CollisionManager2.cs:192-304 | desired = default and not disabled by a matched rule; nothing is enabled beyond its default; only differing objects are written |
| StageTable.TablesShape | Assets/Scripts/Game/STAGE_STATE.cs:22-74 | nine stage tables, each with exactly two entries |
| StageTable.TryGet | Assets/Scripts/Game/STAGE_STATE.cs:79-124 | found iff the code names a stage; then pos = table[POS] and euler = table[ROTATE]; otherwise default outputs |
| StageTable.StagePositionsDistinct | Assets/Scripts/Game/STAGE_STATE.cs:22-74 | distinct stages have distinct target positions |
| LockToggle.GetCurrentState | Assets/Scripts/Game/NewCollisionManager.cs:125-133 | the state is IsLocked xor Invert, and a missing source counts as not locked |
| LockToggle.SetEnabled | Assets/Scripts/Game/NewCollisionManager.cs:19-36 | every live member of the group gets the value; nulls and others are untouched |
| LockToggle.ApplyEntry | Assets/Scripts/Game/NewCollisionManager.cs:135-149 | state true enables OnWhenTrue and disables OffWhenTrue, state false the reverse; OffWhenTrue is written last |
| LockToggle.Refreshed | Assets/Scripts/Game/NewCollisionManager.cs:113-115 | a visited entry is initialized and remembers its current state |
| LockToggle.RefreshAll | Assets/Scripts/Game/NewCollisionManager.cs:100-123 | an entry is applied iff applyAlways, uninitialized or changed; the last applying entry decides each object; a settled set of entries under Update writes nothing |
| LockToggle.OnEnable | Assets/Scripts/Game/NewCollisionManager.cs:76-82 | with ApplyOnEnable every non-null entry is applied; without it nothing happens |
| Locker.Awake | Assets/Scripts/Game/Mirror/ObjectLocker.cs:35-41 | the Euler target is brought into (-180, 180] without changing its direction, and nothing else changes |
| Locker.ToSignedEuler | Assets/Scripts/Game/Mirror/ObjectLocker.cs:104-105 | each component lies in (-180, 180] and names the same angle as the input |
| Locker.AxisClose | Assets/Scripts/Game/Mirror/ObjectLocker.cs:85-91 | one axis of the partial rotation test, stated without the signed pre-normalization |
| Locker.EvaluateNow | Assets/Scripts/Game/Mirror/ObjectLocker.cs:56-96 | false with no flag on; otherwise each enabled position axis within epsilon, and either the quaternion angle (all three axes) or each enabled axis's DeltaAngle within epsilon |
| Locker.Update | Assets/Scripts/Game/Mirror/ObjectLocker.cs:43-54 | the event fires iff the locker was unmatched and matches now; IsMatched latches |
| Locker.RunLatches | Assets/Scripts/Game/Mirror/ObjectLocker.cs:43-54 | over any run of frames the event fires at most once, never for a matched locker, and IsMatched ends true iff it started true or fired |
| ClampMover.ApplyClampWorld | Assets/Scripts/Game/Mirror/ObjectClampMover.cs:214-220 | with ordered bounds each enabled axis ends inside its range; an axis that is disabled or already inside is left as it was |
| ClampMover.ApplyClampWorldIdempotent | Assets/Scripts/Game/Mirror/ObjectClampMover.cs:214-220 | clamping twice with ordered bounds gives the same position as clamping once |
| ClampMover.InvertedClampNotIdempotent | Assets/Scripts/Game/Mirror/ObjectClampMover.cs:216-218 | with Min > Max, Mathf.Clamp yields Min, a value outside [Max, Min]'s usual reading, which is why OnValidate orders the bounds |
| ClampMover.OnValidate | Assets/Scripts/Game/Mirror/ObjectClampMover.cs:125-130 | every axis ends ordered with the same enabled flag and the same pair of bounds; already ordered clamps are unchanged |
| ClampMover.PadMoveDir | Assets/Scripts/Game/Mirror/ObjectClampMover.cs:151-174 | a zero direction reads no stick edge; a direction that reads one has a non-zero dominant component (x on ties, y unused) |
| ClampMover.IsPadMoveDown | Assets/Scripts/Game/Mirror/ObjectClampMover.cs:151-174 | the pad fires exactly on the RStick down edge of the direction PadMoveDir picks |
| ClampMover.PadModeTurnsLeft | Assets/Scripts/Game/Mirror/ObjectClampMover.cs:161-172 | pad mode reads the stick direction a quarter turn to the left of the plain mapping (+x Up, +z Left) |
| ClampMover.PadMoveDirOfAxes | Assets/Scripts/Game/Mirror/ObjectClampMover.cs:161-172 | +x, -x, +z, -z read Right, Left, Up, Down (pad mode: Up, Down, Left, Right) and the vertical axis reads nothing |
| ClampMover.PadMoveDirOpposite | Assets/Scripts/Game/Mirror/ObjectClampMover.cs:151-174 | reversing the world direction reads the opposite stick edge |
| Geometry.Normalize | Assets/Scripts/Game/Mirror/ObjectClampMover.cs:201 | above Vector3.Normalize's cut-off (length 1e-5) the result is the direction scaled by a positive factor and has length 1; at or below it, zero |
| ClampMover.WarpTarget | Assets/Scripts/Game/Mirror/ObjectClampMover.cs:200-203 | the clamped target lies Step times 1/length along WorldDirection; a direction too short to normalize only clamps the position |
| ClampMover.HandleMoveKey | Assets/Scripts/Game/Mirror/ObjectClampMover.cs:191-211 | nothing happens unless the key is set, fires by key-down or by IsPadMoveDown in pad mode, and the direction is non-zero; a warp goes to WarpTarget and only when it is more than 1e-8 (squared) away; otherwise the position is unchanged |
| ClampMover.WarpIsStepAlongDirection | Assets/Scripts/Game/Mirror/ObjectClampMover.cs:200-203 | without clamps, the warp target (where HandleMoveKey moves on a warp) is the position plus Step / \|WorldDirection\| times WorldDirection, at squared distance exactly Step^2 |
| ClampMover.SetCommandedAngle | Assets/Scripts/Game/Mirror/ObjectClampMover.cs:282-297 | reading the axis back gives the written angle; the other two axes are unchanged |
| ClampMover.GetCommandedAngle | Assets/Scripts/Game/Mirror/ObjectClampMover.cs:282-287 | the commanded angle of the requested axis |
| ClampMover.SetGetIdentity | Assets/Scripts/Game/Mirror/ObjectClampMover.cs:282-297 | writing back the angle just read changes none of the three |
| ClampMover.FixedRotation.Reset | Assets/Scripts/Game/Mirror/ObjectClampMover.cs:58 | the index goes to 0, the direction to +1 and applied-once to false; the configuration is kept |
| ClampMover.IndexToApply | Assets/Scripts/Game/Mirror/ObjectClampMover.cs:239-256 | the index is always valid; the first press from the start picks 0, or 1 when Angles[0] is already within FirstPressEps; later presses use the clamped stored index |
| ClampMover.Advance | Assets/Scripts/Game/Mirror/ObjectClampMover.cs:263-276 | marks the rotation applied; turns around at both ends; keeps the index valid; a single angle stays at index 0 |
| ClampMover.HandleFixedRotation | Assets/Scripts/Game/Mirror/ObjectClampMover.cs:229-279 | nothing happens iff the rotation is null, its key is unset, not pressed or it has no angles; otherwise the chosen angle is written to its axis normalized into [0, 360) and naming the same direction |
| ClampMover.PingPong | Assets/Scripts/Game/Mirror/ObjectClampMover.cs:263-270 | the closed-form ping-pong walk stays within 0..last |
| ClampMover.PressRun | Assets/Scripts/Game/Mirror/ObjectClampMover.cs:229-279 | n consecutive presses report n applied indices |
| ClampMover.PressRunFrom | Assets/Scripts/Game/Mirror/ObjectClampMover.cs:263-270 | from the k-th state of the walk, later presses continue the closed-form ping-pong sequence |
| ClampMover.PingPongRun | Assets/Scripts/Game/Mirror/ObjectClampMover.cs:242-276 | from a reset rotation the presses apply 0, 1, .., last, last - 1, .., 0, .., shifted by one when the first angle is skipped |
| ClampMover.Update | Assets/Scripts/Game/Mirror/ObjectClampMover.cs:107-123 | a locked mover does nothing; otherwise rotation A runs on the commanded angles, then rotation B on A's result, each rotation's runtime state is the one its step returns, and an ordered clamp keeps a position that starts inside its box inside it |
| ClampMover.MoveKeyStep | Assets/Scripts/Game/Mirror/ObjectClampMover.cs:191-211 | a move key that cannot fire keeps the position; any key either keeps it or warps to its own target |
| ClampMover.UpdatePositions | Assets/Scripts/Game/Mirror/ObjectClampMover.cs:116-119 | the four move keys run in order right, left, up, down, each from the previous one's position |
| ClampMover.PrefixOnlyKey | Assets/Scripts/Game/Mirror/ObjectClampMover.cs:116-119 | with only key k able to fire, the position is the start before key k and key k's result after it |
| ClampMover.UpdateWithoutFiringStays | Assets/Scripts/Game/Mirror/ObjectClampMover.cs:107-123 | a frame in which no move key can fire leaves the position unchanged |
| ClampMover.UpdateOnlyKeyWarps | Assets/Scripts/Game/Mirror/ObjectClampMover.cs:107-123 | a frame in which only one move key can fire leaves the position or warps it to that key's target |
| StageRotator.Awake | Assets/Scripts/Game/StageRotate.cs:37-46 | the commanded angle starts at From, not in range and not completed |
| StageRotator.TargetAngle | Assets/Scripts/Game/StageRotate.cs:61-72 | in range aims at To; out of range aims back at From with autoReverseWhenFar and holds the commanded angle otherwise |
| StageRotator.Update | Assets/Scripts/Game/StageRotate.cs:48-90 | a frame does nothing iff references are missing, a one-shot has completed, or a one-shot is out of range; an acting frame records the range and steps the angle toward the target; rotated iff the step moved the angle; the start SE fires exactly on entering the range and the reverse SE exactly on leaving it with autoReverseWhenFar; the completion SE fires iff in range within 0.01 of To and not yet completed, and completed becomes oneShot or its old value exactly then |
| StageRotator.OneShotCompletionIsFinal | Assets/Scripts/Game/StageRotate.cs:50 | once a one-shot rotator completes, no run of later frames changes it |
| StageRotator.OneShotCompletesOnReaching | Assets/Scripts/Game/StageRotate.cs:83-87 | a one-shot rotator whose step lands on To in range completes and plays the completion SE, and every later frame is inert |
| StageRotator.CompletionNeedsOneShot | Assets/Scripts/Game/StageRotate.cs:83-87 | a rotator without OneShot never changes its completed flag |
| Goal.IsInRange | Assets/Scripts/Game/CatGoal.cs:177-213 | false without both transforms; a sphere compares squared distance with radius squared; an axis box compares each offset with the half extents, in the target's local frame when boxUseTargetRotation |
| Goal.SphereRadiusMonotone | Assets/Scripts/Game/CatGoal.cs:186-190 | a position in range stays in range when the sphere radius grows |
| Goal.AxisBoxSymmetric | Assets/Scripts/Game/CatGoal.cs:195-211 | the world-axis box is symmetric: the base mirrored through the target is in range iff the base is |
| Goal.Awake | Assets/Scripts/Game/CatGoal.cs:77-88 | the goal starts out of range, with time not paused by it and the image hidden |
| Goal.Update | Assets/Scripts/Game/CatGoal.cs:109-175 | enter and exit are the edges of the range test; the mover is locked on entering when configured; a load fires iff decide is pressed, range is satisfied when required and a scene name is set; time paused by the goal is restored before loading |
| Goal.OnDisable | Assets/Scripts/Game/CatGoal.cs:90-107 | with unpause on disable, time the goal paused is restored to 1; otherwise nothing changes |
| Directions.Or | Assets/Scripts/PadBool.cs:341-344 | a direction is in the union iff it is in either operand |
| Directions.StepEdge | Assets/Scripts/PadBool.cs:461-479 | Held is the new value; Down and Up are never both set, one is set iff the value changed, Down needs it now and Up needed it before |
| Directions.StepDirs | Assets/Scripts/PadBool.cs:461-479 | each direction's Down and Up are that direction's edges |
| Directions.StepDirsClean | Assets/Scripts/PadBool.cs:461-479 | edges built from held flags alone are clean: Down and Up exclusive, and one of them set iff the direction changed |
| Pad.AxisSign | Assets/Scripts/PadBool.cs:48 | +1 iff the value is non-negative, otherwise -1 |
| Pad.UpdateAxisWithHysteresis | Assets/Scripts/PadBool.cs:42-81 | inside the dead zone the latch is 0 and the frame recorded; from 0 it takes the sign iff abs(v) >= hi; the same direction holds; the opposite one wins iff the guard frames passed and abs(v) >= hi |
| Pad.RunAxis | Assets/Scripts/PadBool.cs:42-81 | a run of frames keeps the latch in {-1, 0, 1} |
| Pad.LatchHoldsAboveLo | Assets/Scripts/PadBool.cs:58-70 | a +1 latch survives any run of values all above lo |
| Pad.LatchHoldsBelowMinusLo | Assets/Scripts/PadBool.cs:58-70 | a -1 latch survives any run of values all below -lo |
| Pad.NeutralNeedsHi | Assets/Scripts/PadBool.cs:50-63 | a neutral latch stays neutral while every value stays below hi |
| Pad.DpadEdge | Assets/Scripts/PadBool.cs:469-485 | Down is wasPressedThisFrame or the rising edge, Up is wasReleasedThisFrame or the falling edge; without the flags it is the plain edge |
| Pad.EnsureSchmitt | Assets/Scripts/PadBool.cs:83-118 | a same-frame entry is returned unchanged; otherwise each axis is updated by the hysteresis and each stick's moved flag gets its edges |
| Pad.EnsureSchmittOncePerFrame | Assets/Scripts/PadBool.cs:86-87 | a second call in the same frame returns the stored entry whatever the sticks read now |
| Pad.StickDirs | Assets/Scripts/PadBool.cs:451-452 | right, left, up and down are the signs of the two latches; opposite directions are exclusive |
| Pad.DpadDirs | Assets/Scripts/PadBool.cs:454-485 | Held is isPressed; without this-frame flags the edges are the plain edges |
| Pad.EnsureDirState | Assets/Scripts/PadBool.cs:318-360 | recomputed at most once per frame; Held is either stick or the D-pad; Down and Up OR the D-pad flags into the edges; without those flags the edges are clean |
| Pad.EnsureDirStateBySource | Assets/Scripts/PadBool.cs:440-498 | recomputed at most once per frame; each source's edges come from its own previous Held, which is then stored; stick edges are clean |
| Pad.Select | Assets/Scripts/PadBool.cs:508-555 | a single source is itself, Sticks ORs both sticks, Any ORs all three |
| Pad.AnyIsSticksOrDpad | Assets/Scripts/PadBool.cs:508-555 | for Held, Down and Up alike, Any is Sticks ORed with the D-pad |
| Pad.AnyHeldMatchesCombined | Assets/Scripts/PadBool.cs:318-360 | in a frame where both caches are recomputed, the per-source Any Held equals the combined cache's Held |
| SpriteMover.FirstInOrder | Assets/Scripts/Game/SpriteMover.cs:148-151 | None iff no flag is set; otherwise a set flag that comes first in the order Right, Left, Up, Down |
| SpriteMover.NextLastPressed | Assets/Scripts/Game/SpriteMover.cs:147-151 | without a down edge the last-pressed direction is kept; otherwise it is the first direction with a down edge |
| SpriteMover.ReleaseDir | Assets/Scripts/Game/SpriteMover.cs:153-166 | None iff nothing was released; the release of the last-pressed direction wins; otherwise the first released one in order |
| SpriteMover.GetActiveHeldDir | Assets/Scripts/Game/SpriteMover.cs:255-271 | None iff nothing is held; the last-pressed direction wins while held; otherwise the first held one in the order Up, Down, Right, Left |
| SpriteMover.MoveAxes | Assets/Scripts/Game/SpriteMover.cs:224-243 | each axis is in {-1, 0, 1}: the plain mapping, or with m_IsKeyLeft the keys turned a quarter turn |
| SpriteMover.KeyLeftIsQuarterTurn | Assets/Scripts/Game/SpriteMover.cs:228-241 | the m_IsKeyLeft mapping is the plain mapping rotated by 90 degrees |
| SpriteMover.OpposingKeysCancel | Assets/Scripts/Game/SpriteMover.cs:226-241 | holding both keys of an axis moves like holding neither |
| SpriteMover.Update | Assets/Scripts/Game/SpriteMover.cs:117-198 | a locked frame clears move, last-pressed and previous held flags; an unlocked one records the edges, shows the release visual when something was released, else the active held one, and stores the held flags |
| SpriteMover.ShownVisualIsLive | Assets/Scripts/Game/SpriteMover.cs:168-188 | a shown release visual belongs to a direction released this frame; a shown press visual to a held one |
| SpriteMover.ApplyLockStateImmediate | Assets/Scripts/Game/SpriteMover.cs:319-347 | clears the move and the edge state; with freeze-on-lock saves the current constraints and freezes all axes, otherwise leaves them |
| SpriteMover.LockMovement | Assets/Scripts/Game/SpriteMover.cs:50-55 | the mover is locked with the given hide flag and its motion state cleared |
| SpriteMover.UnlockMovement | Assets/Scripts/Game/SpriteMover.cs:58-63 | unlocked, with the saved constraints restored |
| SpriteMover.LockUnlockRestores | Assets/Scripts/Game/SpriteMover.cs:50-63 | with freeze-on-lock, lock then unlock gives the constraints back |
| SpriteMover.DoubleLockKeepsFrozen | Assets/Scripts/Game/SpriteMover.cs:334-342 | two locks before an unlock save the frozen constraints, so the unlock leaves every axis frozen |
| SpriteMover.Awake | Assets/Scripts/Game/SpriteMover.cs:82-115 | the default visual or none is shown first; rotation is frozen, Y too in the XZ plane, and these are the saved constraints unless a freezing lock applies |
| CatSelect.UpdateKeyState | Assets/Scripts/Select/CatSelect.cs:139-151 | a down edge records the frame; the key counts as held iff held and not released this frame |
| CatSelect.Check | Assets/Scripts/Select/CatSelect.cs:160-163 | the running best moves to d, with d's down frame, iff d is held and was pressed later than the best so far; otherwise it is kept |
| CatSelect.SelectLatestHeldDir | Assets/Scripts/Select/CatSelect.cs:153-176 | None iff no held key has been seen pressed; otherwise a held key with the latest down frame, ties going to the earlier of Right, Left, Up, Down |
| CatSelect.NeverPressedNeverSelected | Assets/Scripts/Select/CatSelect.cs:162-171 | a key with no recorded down edge is never selected, even when held |
| CatSelect.SwitchActive | Assets/Scripts/Select/CatSelect.cs:218-226 | a missing or already current target changes nothing; otherwise the old visual goes off and the target on; exactly one visual stays shown |
| CatSelect.SwitchActiveIdempotent | Assets/Scripts/Select/CatSelect.cs:218-226 | switching to the same target twice is switching once |
| CatSelect.DirToMoveVector | Assets/Scripts/Select/CatSelect.cs:178-190 | only Right and Left move, by one unit along x |
| CatSelect.WalkVisual | Assets/Scripts/Select/CatSelect.cs:194-203 | every direction has a walking visual and None has none; Right and Up show a Back visual, Left and Down a Front one |
| CatSelect.WaitVisual | Assets/Scripts/Select/CatSelect.cs:205-214 | every direction has a waiting visual and None has none; Right and Up show a Back visual, Left and Down a Front one |
| CatSelect.VisualsInjective | Assets/Scripts/Select/CatSelect.cs:194-214 | distinct directions show distinct walk visuals and distinct wait visuals, and no walk visual is a wait visual |
| CatSelect.Update | Assets/Scripts/Select/CatSelect.cs:68-105 | the selected direction becomes active with its walk visual; with nothing selected the previous direction's wait visual shows and the cat stops; the move vector follows the active direction |
| CatSelect.Awake | Assets/Scripts/Select/CatSelect.cs:44-66 | no key pressed, nothing moving, only the front-wait-right visual shown |
| HoldLoad.CanLoadByName | Assets/Scripts/Game/HoldLoadScene.cs:199-210 | false exactly for an empty name: the build check is ORed with true, so every non-empty name passes |
| HoldLoad.TryLoadScene | Assets/Scripts/Game/HoldLoadScene.cs:92-110 | a load is requested iff the name is non-empty, and it is that name |
| HoldLoad.OnEnable | Assets/Scripts/Game/HoldLoadScene.cs:49-56 | with ResetOnEnable the timer and fired flag are cleared; otherwise nothing changes |
| HoldLoad.Update | Assets/Scripts/Game/HoldLoadScene.cs:58-90 | fired with FireOnce ignores input; holding adds the scaled or unscaled delta; reaching HoldSeconds restarts the timer, sets fired under FireOnce and loads iff the name is non-empty; releasing resets a positive timer |
| HoldLoad.TimerStaysBelowHold | Assets/Scripts/Game/HoldLoadScene.cs:64-84 | with a positive HoldSeconds a timer below it stays below it |
| HoldLoad.FireOnceLoadsAtMostOnce | Assets/Scripts/Game/HoldLoadScene.cs:60-62 | with FireOnce any run of frames loads at most once, and a fired component stays inert |
| ShowHold.Targets | Assets/Scripts/Game/ShowHoldObject.cs:42-54 | the handled objects are exactly the non-null entries of the target array |
| ShowHold.SetActiveAll | Assets/Scripts/Game/ShowHoldObject.cs:42-54 | every target ends in the given state; other objects are untouched; exactly the targets whose state differed are written |
| ShowHold.SetActiveAllIdempotent | Assets/Scripts/Game/ShowHoldObject.cs:42-54 | a second call with the same state changes and writes nothing |
| ShowHold.IsAnyActive | Assets/Scripts/Game/ShowHoldObject.cs:56-65 | true iff some non-null target is active |
| ShowHold.Awake | Assets/Scripts/Game/ShowHoldObject.cs:18-29 | with HideOnAwake every target is hidden and the flag cleared; otherwise the flag is whether any target is active and nothing is written |
| ShowHold.Update | Assets/Scripts/Game/ShowHoldObject.cs:31-40 | the flag follows the hold input; targets are written only when it changes |
| ShowHold.UpdateKeepsSync | Assets/Scripts/Game/ShowHoldObject.cs:31-40 | when every target agrees with the flag, it still does after an Update |
| ShowHold.AwakeHiddenInSync | Assets/Scripts/Game/ShowHoldObject.cs:20-24 | after a hiding Awake the targets agree with the flag |
| Pause.Index | Assets/Scripts/Game/PauseMenu.cs:151-167 | the item's position in Retry, ExitStage, Back is 0..2 |
| Pause.ItemAt | Assets/Scripts/Game/PauseMenu.cs:155-167 | the cast back from an index is the inverse of Index |
| Pause.SelectionVisuals | Assets/Scripts/Game/PauseMenu.cs:250-269 | exactly the present groups are written, and one is lit iff it is the current item |
| Pause.ExactlyCurrentLit | Assets/Scripts/Game/PauseMenu.cs:250-255 | two lit groups are the same group, the current one |
| Pause.SetVisible | Assets/Scripts/Game/PauseMenu.cs:214-243 | opening saves the time scale, pauses and selects Back; closing restores 1 or the saved scale; both clear the action flag |
| Pause.OpenCloseRestoresTimeScale | Assets/Scripts/Game/PauseMenu.cs:223-241 | opening then closing gives the original time scale back, unpaused |
| Pause.Awake | Assets/Scripts/Game/PauseMenu.cs:69-107 | hidden, not paused, time scale 1, no action under way |
| Pause.Navigate | Assets/Scripts/Game/PauseMenu.cs:148-181 | up moves one item toward Retry, else down one toward Back, else reset selects Back; the select SE plays iff an up/down move changed the item |
| Pause.UpDownInverse | Assets/Scripts/Game/PauseMenu.cs:148-171 | away from the ends, down undoes up and up undoes down |
| Pause.PlayThenLoadScene | Assets/Scripts/Game/PauseMenu.cs:282-302 | an empty name does nothing; otherwise the action flag is set, time returns to the saved scale and the scene is loaded |
| Pause.Toggle | Assets/Scripts/Game/PauseMenu.cs:120-123 | the toggle input flips visibility through SetVisible and nothing else |
| Pause.Decide | Assets/Scripts/Game/PauseMenu.cs:186-204 | Back closes the menu with the saved scale; Retry and ExitStage load their scene unless its name is empty |
| Pause.Update | Assets/Scripts/Game/PauseMenu.cs:109-205 | blocked while an action is under way; otherwise toggle, stop when hidden, count stick frames, navigate, then decide |
| Pause.OpeningSelectsBack | Assets/Scripts/Game/PauseMenu.cs:120-181 | the Escape press that opens the menu (also reset) leaves it paused on Back with the old scale saved and no events |
| Pause.UpdateKeepsPauseMatchesVisibility | Assets/Scripts/Game/PauseMenu.cs:109-243 | unless a load is under way, the menu is shown iff the game is paused, before and after every Update |
| Pause.StickHeldMovesOnce | Assets/Scripts/Game/PauseMenu.cs:132-144 | holding the stick up moves the selection only on the first frame |
| TripleSelect.SetIndex | Assets/Scripts/Select/UITripleSelect.cs:76-88 | the focus moves to the target clamped to 0..2, and the select SE plays iff the focus changed; pushing past an edge does nothing |
| TripleSelect.LeftRightInverse | Assets/Scripts/Select/UITripleSelect.cs:60-67 | away from the edges a left move then a right move (or the reverse) returns to the start |
| TripleSelect.ApplyColors | Assets/Scripts/Select/UITripleSelect.cs:90-100 | exactly the assigned images among the first three are tinted, focused iff at the current index |
| TripleSelect.OnDecide | Assets/Scripts/Select/UITripleSelect.cs:102-125 | nothing loads iff the focused position's scene name is empty; otherwise that scene loads, after the decide SE when waiting is on and an SE is set |
| TripleSelect.DecideMapsPositions | Assets/Scripts/Select/UITripleSelect.cs:105-108 | left, center and right load their own scene |
| TripleSelect.Update | Assets/Scripts/Select/UITripleSelect.cs:57-74 | the left key is checked before the right key; decide or accepted keypad Enter decides on the new focus; otherwise nothing loads |
| TripleSelect.LeftBeatsRight | Assets/Scripts/Select/UITripleSelect.cs:60-67 | pressing left and right together acts like left alone |
| TripleSelect.SetFocus | Assets/Scripts/Select/UITripleSelect.cs:145-161 | the focus is set to the position and only that image is tinted focused |
| Canvas.LookFor | Assets/Scripts/Title/ToggleExit.cs:169-175 | alpha is 1 when enabled and 0 when not; interactable and raycast blocking follow the flag |
| Canvas.GroupLooks | Assets/Scripts/Title/ToggleExit.cs:162-167 | the YES group is opaque and takes input iff the choice is YES, the NO group iff it is NO; raycast blocking follows interactable |
| Canvas.ExactlyOneGroupShown | Assets/Scripts/Title/ToggleExit.cs:162-167 | YES shows only the YES group, NO only the NO group |
| ToggleExit.Awake | Assets/Scripts/Title/ToggleExit.cs:48-72 | the menu starts hidden with NO chosen and the quit flag clear |
| ToggleExit.Choose | Assets/Scripts/Title/ToggleExit.cs:89-117 | YES input selects YES and sets the quit flag, else NO input selects NO, else reset selects NO silently; reselecting plays nothing; the quit flag stays equal to YES being chosen |
| ToggleExit.Update | Assets/Scripts/Title/ToggleExit.cs:74-142 | toggle flips visibility; a hidden menu does nothing more; decide on YES quits (after the SE when configured) and on NO closes the menu |
| ToggleExit.GroupMatchesChoice | Assets/Scripts/Title/ToggleExit.cs:162-167 | after any Update the shown group is the chosen one |
| ToggleObject.SetVisible | Assets/Scripts/Title/ToggleObject.cs:45-55 | the flag is set and the group's look follows it |
| ToggleObject.Awake | Assets/Scripts/Title/ToggleObject.cs:21-28 | the object starts hidden and not interactable |
| ToggleObject.Update | Assets/Scripts/Title/ToggleObject.cs:30-37 | the toggle key flips visibility and writes the look; without it nothing is written |
| ToggleObject.TwoPressesRestore | Assets/Scripts/Title/ToggleObject.cs:30-37 | two toggle presses restore the visibility |
| ToggleYesNo.Awake | Assets/Scripts/Title/ToggleYesNO.cs:25-31 | NO is shown and the quit flag clear |
| ToggleYesNo.Update | Assets/Scripts/Title/ToggleYesNO.cs:33-56 | YES before NO before reset; exit quits iff YES is chosen, and otherwise clears the show-exit-menu flag |
| ToggleYesNo.YesWins | Assets/Scripts/Title/ToggleYesNO.cs:35-49 | within a frame YES wins over NO and reset |
| ToggleYesNo.ChooseThenExit | Assets/Scripts/Title/ToggleYesNO.cs:51-55 | YES then exit quits; NO then exit closes the menu without quitting |
| PressAnyButton.PingPong | Assets/Scripts/Title/PressAnyButton.cs:86 | Mathf.PingPong stays within [0, length] |
| PressAnyButton.Lerp | Assets/Scripts/Title/PressAnyButton.cs:87 | Mathf.Lerp stays between its two ends in either order, and gives a at t <= 0 and b at t >= 1 |
| PressAnyButton.FadeAlpha | Assets/Scripts/Title/PressAnyButton.cs:79-92 | the looping alpha stays between the two bounds, however they are ordered |
| PressAnyButton.Awake | Assets/Scripts/Title/PressAnyButton.cs:32-49 | remembers whether the menu is shown; input is not held back |
| PressAnyButton.Update | Assets/Scripts/Title/PressAnyButton.cs:51-77 | the shown-to-hidden edge holds input back for max(0, IgnoreSeconds); a load happens iff the menu is hidden, the resume time has come, the trigger fired and a name is set |
| PressAnyButton.ClosingFrameNeverLoads | Assets/Scripts/Title/PressAnyButton.cs:58-70 | with a positive ignore time the frame that closes the menu never loads |
| SceneRef.TryResolveScene | Assets/Scripts/Select/EnterToScene.cs:25-43 | name mode resolves iff the name is non-empty and loadable; index mode iff 0 <= index < scene count |
| SceneRef.Load | Assets/Scripts/Select/EnterToScene.cs:45-63 | a load is requested iff the scene resolves, and for the resolved scene with the async flag |
| SceneRef.ResolvedKindFollowsMode | Assets/Scripts/Select/EnterToScene.cs:30-42 | a resolved scene is by name iff name mode is on |
| EnterToScene.Radius | Assets/Scripts/Select/EnterToScene.cs:23 | a positive radius is kept and any other counts as 0.5 |
| EnterToScene.FirstHitIndex | Assets/Scripts/Select/EnterToScene.cs:106-132 | -1 iff no binding is hit; otherwise the first hit binding |
| EnterToScene.NearestHitIndex | Assets/Scripts/Select/EnterToScene.cs:106-132 | -1 iff no binding is hit; otherwise a hit of least squared distance, the earliest among equals |
| EnterToScene.FindHitBindingIndex | Assets/Scripts/Select/EnterToScene.cs:99-133 | -1 without a base; otherwise a hit is found iff one exists, and it is the Chosen one: the first hit, or with PreferNearest the nearest, earliest among equals |
| EnterToScene.ChosenUnique | Assets/Scripts/Select/EnterToScene.cs:106-132 | at most one binding is the chosen hit, so the scan's choice is determined |
| EnterToScene.Update | Assets/Scripts/Select/EnterToScene.cs:83-97 | no load without an Enter press, a base model or a hit; otherwise the load is `Load` of the chosen binding (first hit, or nearest with PreferNearest), which is none when that binding's scene does not resolve |
| TyperScene.IsTriggeredThisFrame | Assets/Scripts/Select/TyperScene.cs:23-34 | true iff one of the binding's keys went down this frame |
| TyperScene.FirstTriggered | Assets/Scripts/Select/TyperScene.cs:101-118 | -1 iff no non-null binding fires; otherwise the first one that does |
| TyperScene.Update | Assets/Scripts/Select/TyperScene.cs:101-118 | only the first firing binding is attempted, and its scene is loaded when it resolves |
| BackgroundFade.SmoothStep | Assets/Scripts/Select/BackgroundFadePos.cs:113-115 | Mathf.SmoothStep stays between its ends, starting at from and ending at to |
| BackgroundFade.Resume | Assets/Scripts/Select/BackgroundFadePos.cs:110-122 | a finished fade sets the clamped target and ends; otherwise time advances and the alpha stays between start and target |
| BackgroundFade.StartFade | Assets/Scripts/Select/BackgroundFadePos.cs:87-108 | the image's running fade is replaced; a non-positive duration sets the clamped target at once; other images are untouched |
| BackgroundFade.ApplyRule | Assets/Scripts/Select/BackgroundFadePos.cs:67-80 | an out crossing starts the fade to 0 over FadeOutDuration and heads the image for 0; an in crossing of an image at or below the alpha epsilon starts the fade to 1 over FadeInDuration and heads it for 1; with neither, nothing changes; other images are untouched |
| BackgroundFade.CrossingsExclusive | Assets/Scripts/Select/BackgroundFadePos.cs:71-80 | the out and the in trigger never fire in the same frame |
| BackgroundFade.StartFadeHeadsForTarget | Assets/Scripts/Select/BackgroundFadePos.cs:87-108 | a fade started toward a target in [0, 1] heads the image for that target, at once or through its running fade |
| BackgroundFade.StartFadeLocal | Assets/Scripts/Select/BackgroundFadePos.cs:87-108 | starting a fade reads only its own image |
| BackgroundFade.ApplyRuleLocal | Assets/Scripts/Select/BackgroundFadePos.cs:67-80 | a rule reads only its own image |
| BackgroundFade.ApplyRules | Assets/Scripts/Select/BackgroundFadePos.cs:65-81 | the set of images is kept; with no crossing nothing changes; an image no rule drives is untouched; when no two rules drive the same image, each driven image ends exactly as its own rule alone would leave it |
| BackgroundFade.Update | Assets/Scripts/Select/BackgroundFadePos.cs:59-84 | with no rules or no base nothing changes, not even the previous x; otherwise the rules run and x is stored |
| BackgroundFade.StillBaseStartsNothing | Assets/Scripts/Select/BackgroundFadePos.cs:71-80 | a base that has not moved starts no fade |
| BackgroundFade.UpdateDrivesImage | Assets/Scripts/Select/BackgroundFadePos.cs:59-84 | with distinct rule images, a rule's out crossing heads its image for 0, an in crossing of a transparent image heads it for 1, and without a crossing the image is unchanged |
| BackgroundFade.ApplyRulesInRange | Assets/Scripts/Select/BackgroundFadePos.cs:98-123 | fading never takes an alpha out of [0, 1] |
| BackgroundFade.ResumeAll | Assets/Scripts/Select/BackgroundFadePos.cs:98-123 | one frame of every running fade keeps alphas in [0, 1] and leaves images without a fade unchanged |
| BackgroundFade.OnDisable | Assets/Scripts/Select/BackgroundFadePos.cs:49-57 | every running fade stops; alphas and previous x are kept |
| BackgroundFade.Awake | Assets/Scripts/Select/BackgroundFadePos.cs:43-47 | the previous x starts at the base's x |

## Left out

- Audio: `BgmManager`, `BgmPlayer`, `BgmAutoBootstrap` and every `AudioSource` call. They are engine plumbing with no logic of their own. Sound effects are recorded as output events only.
- Rendering calls: `RenderSingleCamera`, `Camera.Render`, `RenderTexture` create/release and the `Shader.SetGlobal…` calls are output events or are dropped, because they only talk to the GPU.
- `CleanupRenderTextures`: nothing in the source calls it, so the model has no release-on-disable.
- Quaternion and transform math: `ObjectLocker` takes its all-axes angle as an input. `RebuildLocalRotation`, `StageRotate.ApplyRotation`, the probe's rotation and the probe's oblique projection (`CalculateObliqueProjection`) are not modelled. Unity's quaternion algebra is out of scope.
- `CatGoal`'s box test takes `InverseTransformPoint` as a parameter, and `StageRotate` does the same with `Mathf.MoveTowardsAngle`. Each is an engine function with no source here.
- Geometry.Normalize: the square root inside `dir.Normalize()` (ObjectClampMover) and `.normalized` (PlanarReflectionsProbe.GetNormal) is a parameter (the inverse length, constrained to be 1 / |v|); the 1e-5 cut-off and the approximate `== Vector3.zero` are modelled.
- `TitleModelRotate`: it only spins a model for display.
- Floating point: floats are exact reals, and `Mathf.Approximately` is exact equality. Rounding is not modelled.
- Physics: the `FixedUpdate` of `SpriteMover` and `CatSelect` (rigidbody `MovePosition` and velocity writes) is not modelled. Only the per-frame input logic is.
- Raw device polling, `Time.frameCount` and `HoldLoadScene`'s `KeyCode`-to-`Key` conversion table: the model reads key and stick states as already-decoded booleans.
- Scene loading: `SceneManager.LoadScene`, `LoadSceneAsync` and `Application.Quit` are output events. `Application.CanStreamedLevelBeLoaded` and the build-settings scene count are parameters.
- SceneRef.Load: does not carry the `LoadSceneMode` argument, because it is passed through unchanged and chooses nothing in the code. The same holds for `EnterToScene.Update` and `TyperScene.Update`, which call it.
- HoldLoad.TryLoadScene: does not carry `m_LoadMode` (HoldLoadScene.cs:109) either, for the same reason.
- SpriteMover.MoveAxes: returns the integer axis pair only; the normalisation of (x, y) and its placement in the XZ or XY plane by `m_MoveInXZPlane` (SpriteMover.cs:244-245) only feed `FixedUpdate`'s `MovePosition`, which is left out with the rest of the physics. SpriteMover.Update stores that pair, not the 3D vector, for the same reason.
- ReflectionProbe.TexName: takes `targetTextureID` as a slot 1..4, assuming the inspector range `[Range(1, 4)]` (Assets/URP/PlanarReflectionsProbe.cs:43) holds; that attribute is an editor hint and does not restrict the value at run time.
- `TitleState.SHOW_EXIT_MENU` and `ObjectClampMover.IsLocked` are inputs to the frames that read them, because they are written by other components.
- `ObjectLocker.GetLocked` is folded into the `IsMatched` result of `Locker.EvaluateNow`; it only returns that field.
- `NewCollisionManager.Update` and `ManualRefresh` are the two calls of `LockToggle.RefreshAll` (forced false and true).
- `CatGoal.OnDestroy` runs the same code as `OnDisable` and is modelled by `Goal.OnDisable`.
- `BackgroundFadePos` coroutines: a finished coroutine's `null` entry is modelled as a removed key, and the fade's elapsed time is advanced by the frame's delta time, which is an input.
- Test scaffolding, `QuitButton`, `BackGroundSetter`, `Goal.cs`, editor gizmos and `#if UNITY_EDITOR` blocks are not part of this model. They are editor-only or one-line wrappers around engine calls.

## Findings

| source | as written | input that shows it | evidently intended | confidence | as-written member | corrected member |
|---|---|---|---|---|---|---|
| Assets/Scripts/Game/Mirror.cs:117 | `CalcReflectionMatrix` negates the plane distance before building the translation column, so the translation is `-2 n (n . pos)`, the opposite of the reflection's `+2 n (n . pos)` | the plane `new Plane((0,0,1), (0,0,1))`: the matrix maps the mirror's own point (0,0,1) to (0,0,-3) | a reflection across the mirror plane, which fixes every point of the plane (translation `-2 n distance`) | medium; not executed | Mirror.CalcReflectionMatrixMovesPlanePoint | Mirror.ReflectionMatrix (used by Mirror.MirrorView; Mirror.ReflectionMatrixReflects proves it reflects) |
| Assets/Scripts/Game/Mirror.cs:89 | the mirror view is `CalcReflectionMatrix(plane) * src.worldToCameraMatrix`: the world-space reflection is applied after the view, in camera space | mirror plane z = 0 through the origin, source camera at (0,0,5): the view still sends (0,0,5) to the eye, so the mirror camera renders from the source position instead of (0,0,-5) | `src.worldToCameraMatrix * reflection`, whose eye is the reflection of the source eye | medium; not executed | Mirror.ProgramViewKeepsCamera (Mirror.ProgramViewCounterexample for the input; modelled by Mirror.LateUpdate as written) | Mirror.MirrorView (Mirror.MirrorViewCameraIsReflected, Mirror.MirrorViewExample) |
