/** PlanarReflectionsProbe: which cameras get a reflection pass, the
    per-camera render-target cache, the ignore list, the choice of plane
    normal, the mirrored probe position and the published texture slot.
    Cameras, textures and probes are integer handles; engine calls
    (RenderSingleCamera, RenderTexture.Create/Release, the oblique
    projection and LookAt) are not executed but recorded. */
module ReflectionProbe {
  import opened Geometry
  import opened Optional

  type CameraId = int

  datatype CameraType = Game | SceneView | Preview | VR | Reflection

  /** A render target: its handle and pixel size. */
  datatype Texture = Texture(handle: int, width: int, height: int)

  // ---------------------------------------------------------------------
  // Camera filter

  /** CheckCamera: true means "skip this camera". */
  function CheckCamera(kind: CameraType, cam: CameraId, renderInEditor: bool, ignored: seq<CameraId>): (skip: bool)
    ensures kind == Reflection ==> skip
    ensures kind == SceneView ==> (skip <==> !renderInEditor || cam in ignored)
    ensures kind != Reflection && kind != SceneView ==> (skip <==> cam in ignored)
  {
    if kind == Reflection then true
    else if !renderInEditor && kind == SceneView then true
    else cam in ignored
  }

  // ---------------------------------------------------------------------
  // Ignore list (an ArrayList used as a set)

  predicate NoDuplicates(s: seq<CameraId>)
  {
    forall i, j :: 0 <= i < j < |s| ==> s[i] != s[j]
  }

  /** ArrayList.Remove: drops the first occurrence only. */
  function RemoveFirst(s: seq<CameraId>, c: CameraId): (r: seq<CameraId>)
    ensures c !in s ==> r == s
    ensures c in s ==> |r| == |s| - 1
    ensures forall x :: x in r ==> x in s
    ensures forall x :: x in s && x != c ==> x in r
    decreases |s|
  {
    if |s| == 0 then s
    else if s[0] == c then s[1..]
    else [s[0]] + RemoveFirst(s[1..], c)
  }

  lemma {:induction false} RemoveFirstKeepsNoDuplicates(s: seq<CameraId>, c: CameraId)
    requires NoDuplicates(s)
    ensures NoDuplicates(RemoveFirst(s, c))
    ensures c !in RemoveFirst(s, c)
    decreases |s|
  {
    if |s| == 0 {
    } else if s[0] == c {
      assert forall k :: 0 <= k < |s[1..]| ==> s[1..][k] == s[k + 1];
    } else {
      assert NoDuplicates(s[1..]) by {
        forall i, j | 0 <= i < j < |s[1..]| ensures s[1..][i] != s[1..][j] {
          assert s[1..][i] == s[i + 1] && s[1..][j] == s[j + 1];
        }
      }
      RemoveFirstKeepsNoDuplicates(s[1..], c);
      var tail := RemoveFirst(s[1..], c);
      assert s[0] !in s[1..] by {
        forall k | 0 <= k < |s[1..]| ensures s[1..][k] != s[0] {
          assert s[1..][k] == s[k + 1];
        }
      }
      assert s[0] !in tail;
      var r := [s[0]] + tail;
      forall i, j | 0 <= i < j < |r| ensures r[i] != r[j] {
        if i == 0 {
          assert r[j] == tail[j - 1];
          assert tail[j - 1] in tail;
        } else {
          assert r[i] == tail[i - 1] && r[j] == tail[j - 1];
        }
      }
    }
  }

  /** IgnoreCamera: adds cam unless it is already there. */
  function IgnoreCamera(ignored: seq<CameraId>, cam: CameraId): (r: seq<CameraId>)
    requires NoDuplicates(ignored)
    ensures NoDuplicates(r)
    ensures forall x :: x in r <==> x in ignored || x == cam
    ensures cam in ignored ==> r == ignored
  {
    if cam in ignored then ignored else ignored + [cam]
  }

  /** UnignoreCamera: removes cam if present. */
  function UnignoreCamera(ignored: seq<CameraId>, cam: CameraId): (r: seq<CameraId>)
    requires NoDuplicates(ignored)
    ensures NoDuplicates(r)
    ensures forall x :: x in r <==> x in ignored && x != cam
  {
    RemoveFirstKeepsNoDuplicates(ignored, cam);
    if cam in ignored then RemoveFirst(ignored, cam) else ignored
  }

  /** ClearIgnoredList. */
  function ClearIgnoredList(ignored: seq<CameraId>): (r: seq<CameraId>)
    ensures forall x :: x !in r
  {
    []
  }

  /** IsIgnoring: membership in the list. */
  function IsIgnoring(ignored: seq<CameraId>, cam: CameraId): (b: bool)
    ensures b <==> exists i :: 0 <= i < |ignored| && ignored[i] == cam
  {
    cam in ignored
  }

  /** Ignoring a camera that was not ignored and then un-ignoring it gives the
      original list back. */
  lemma {:induction false} IgnoreThenUnignore(ignored: seq<CameraId>, cam: CameraId)
    requires NoDuplicates(ignored) && cam !in ignored
    ensures UnignoreCamera(IgnoreCamera(ignored, cam), cam) == ignored
  {
    RemoveFirstAppend(ignored, cam);
  }

  lemma {:induction false} RemoveFirstAppend(s: seq<CameraId>, c: CameraId)
    requires c !in s
    ensures RemoveFirst(s + [c], c) == s
    decreases |s|
  {
    if |s| == 0 {
      assert s + [c] == [c];
    } else {
      assert (s + [c])[1..] == s[1..] + [c];
      RemoveFirstAppend(s[1..], c);
    }
  }

  /** After IgnoreCamera, IsIgnoring holds, and after UnignoreCamera or
      ClearIgnoredList it does not: the camera filter follows the list. */
  lemma IgnoreControlsFilter(ignored: seq<CameraId>, cam: CameraId, renderInEditor: bool)
    requires NoDuplicates(ignored)
    ensures CheckCamera(Game, cam, renderInEditor, IgnoreCamera(ignored, cam))
    ensures !CheckCamera(Game, cam, renderInEditor, UnignoreCamera(ignored, cam))
    ensures !CheckCamera(Game, cam, renderInEditor, ClearIgnoredList(ignored))
  {
  }

  // ---------------------------------------------------------------------
  // Render-target cache

  /** Result of CreateRenderTexture: the new cache, the texture the probe now
      targets, and the texture released (if one was replaced). */
  datatype TextureUpdate = TextureUpdate(cache: map<CameraId, Texture>, target: Texture, released: Option<Texture>)

  /** The target size: (int)(pixel * quality), truncated toward zero. */
  function TargetSize(pixels: int, quality: real): (n: int)
    ensures pixels as real * quality >= 0.0 ==> n as real <= pixels as real * quality < n as real + 1.0
  {
    Truncate(pixels as real * quality)
  }

  /** CreateRenderTexture for camera cam; freshHandle names the texture that
      would be created. */
  function CreateRenderTexture(cache: map<CameraId, Texture>, cam: CameraId, pixelWidth: int, pixelHeight: int,
                               quality: real, freshHandle: int): (u: TextureUpdate)
    ensures cam in u.cache && u.cache[cam] == u.target
    ensures u.target.width == TargetSize(pixelWidth, quality)
    ensures u.target.height == TargetSize(pixelHeight, quality)
    ensures u.cache.Keys == cache.Keys + {cam}
    ensures forall c :: c in cache && c != cam ==> u.cache[c] == cache[c]
    ensures (cam in cache && u.target == cache[cam])
            <==> (cam in cache && cache[cam].width == u.target.width && cache[cam].height == u.target.height)
    ensures u.released.Some? <==> cam in cache && u.target != cache[cam]
    ensures u.released.Some? ==> u.released.value == cache[cam] && u.target.handle == freshHandle
    ensures !(cam in cache && cache[cam].width == u.target.width && cache[cam].height == u.target.height)
            ==> u.target.handle == freshHandle
  {
    var w := TargetSize(pixelWidth, quality);
    var h := TargetSize(pixelHeight, quality);
    if cam in cache && cache[cam].width == w && cache[cam].height == h then
      TextureUpdate(cache, cache[cam], None)
    else
      var t := Texture(freshHandle, w, h);
      TextureUpdate(cache[cam := t], t, if cam in cache then Some(cache[cam]) else None)
  }

  /** Asking twice for the same camera at the same size reuses the texture:
      the second call changes nothing and releases nothing. */
  lemma CreateRenderTextureReuses(cache: map<CameraId, Texture>, cam: CameraId, pw: int, ph: int, q: real, h1: int, h2: int)
    ensures var u1 := CreateRenderTexture(cache, cam, pw, ph, q, h1);
            var u2 := CreateRenderTexture(u1.cache, cam, pw, ph, q, h2);
            u2.cache == u1.cache && u2.target == u1.target && u2.released.None?
  {
  }

  // ---------------------------------------------------------------------
  // Plane normal

  datatype NormalInputMode = TransformAxis | CustomAnglesDeg | CustomVector
  datatype NormalSourceAxis = AxisForward | AxisUp | AxisRight

  /** The probe's transform axes in world space (read from the engine). */
  datatype Axes = Axes(forward: Vec3, up: Vec3, right: Vec3)

  function GetTransformAxisVector(axes: Axes, axis: NormalSourceAxis): (v: Vec3)
    ensures axis == AxisUp ==> v == axes.up
    ensures axis == AxisRight ==> v == axes.right
    ensures axis == AxisForward ==> v == axes.forward
  {
    match axis
    case AxisUp => axes.up
    case AxisRight => axes.right
    case AxisForward => axes.forward
  }

  function GetBaseAxisVector(axis: NormalSourceAxis): (v: Vec3)
    ensures IsUnit(v)
    ensures GetTransformAxisVector(Axes(Forward, Up, Right), axis) == v
  {
    match axis
    case AxisUp => Up
    case AxisRight => Right
    case AxisForward => Forward
  }

  /** GetNormal.  The quaternion rotation of the CustomAnglesDeg mode arrives
      as rotatedBase (Quaternion.Euler(deg) * GetBaseAxisVector(axis)).  The
      zero test is Vector3's approximate ==, and `.normalized` divides by the
      length, whose inverse arrives as invLength.  Above the cut-off the
      result is a unit vector along the input; exactly at squared length
      1e-10 the == test fails and `.normalized` still gives zero. */
  function GetNormal(mode: NormalInputMode, axis: NormalSourceAxis, axes: Axes,
                     useCustomNormal: bool, customNormal: Vec3, rotatedBase: Vec3, invLength: real): (n: Vec3)
    requires mode == CustomAnglesDeg ==> NormalizesWith(rotatedBase, invLength)
    requires mode == CustomVector && useCustomNormal ==> NormalizesWith(customNormal, invLength)
    ensures mode == TransformAxis ==> n == GetTransformAxisVector(axes, axis)
    ensures mode == CustomAnglesDeg && ApproxZero(rotatedBase) ==> n == Up
    ensures mode == CustomAnglesDeg && SqrMagnitude(rotatedBase) > NormalizeEpsilonSqr ==>
              n == Scale(invLength, rotatedBase) && IsUnit(n)
    ensures mode == CustomAnglesDeg && SqrMagnitude(rotatedBase) == NormalizeEpsilonSqr ==> n == Zero
    ensures mode == CustomVector && useCustomNormal && ApproxZero(customNormal) ==> n == Up
    ensures mode == CustomVector && useCustomNormal && SqrMagnitude(customNormal) > NormalizeEpsilonSqr ==>
              n == Scale(invLength, customNormal) && IsUnit(n)
    ensures mode == CustomVector && useCustomNormal && SqrMagnitude(customNormal) == NormalizeEpsilonSqr ==> n == Zero
    ensures mode == CustomVector && !useCustomNormal ==> n == axes.forward
  {
    match mode
    case TransformAxis => GetTransformAxisVector(axes, axis)
    case CustomAnglesDeg => if ApproxZero(rotatedBase) then Up else Normalize(rotatedBase, invLength)
    case CustomVector =>
      if useCustomNormal then (if ApproxZero(customNormal) then Up else Normalize(customNormal, invLength))
      else axes.forward
  }

  // ---------------------------------------------------------------------
  // Probe position

  /** UpdateProbeTransform's position: the camera position mirrored across the
      plane through planePos with the given normal. */
  function ProbePosition(camPos: Vec3, normal: Vec3, planePos: Vec3): (p: Vec3)
    ensures IsUnit(normal) ==> Dot(normal, Sub(p, planePos)) == -Dot(normal, Sub(camPos, planePos))
  {
    var proj := Scale(Dot(normal, Sub(camPos, planePos)), normal);
    var p := Sub(camPos, Scale(2.0, proj));
    assert p == ReflectPoint(camPos, normal, planePos);
    if IsUnit(normal) then ReflectNegatesDistance(camPos, normal, planePos); p else p
  }

  /** A camera lying on the plane is its own mirror image. */
  lemma ProbePositionOnPlane(camPos: Vec3, normal: Vec3, planePos: Vec3)
    requires Dot(normal, Sub(camPos, planePos)) == 0.0
    ensures ProbePosition(camPos, normal, planePos) == camPos
  {
    var d := Dot(normal, Sub(camPos, planePos));
    assert Scale(d, normal) == Zero;
  }

  /** With a unit normal the probe sits on the other side of the plane at the
      same distance, and mirroring the probe gives the camera back. */
  lemma ProbePositionMirrors(camPos: Vec3, normal: Vec3, planePos: Vec3)
    requires IsUnit(normal)
    ensures Dot(normal, Sub(ProbePosition(camPos, normal, planePos), planePos)) == -Dot(normal, Sub(camPos, planePos))
    ensures ProbePosition(ProbePosition(camPos, normal, planePos), normal, planePos) == camPos
  {
    assert ProbePosition(camPos, normal, planePos) == ReflectPoint(camPos, normal, planePos);
    ReflectNegatesDistance(camPos, normal, planePos);
    ReflectInvolution(camPos, normal, planePos);
    assert ProbePosition(ReflectPoint(camPos, normal, planePos), normal, planePos)
        == ReflectPoint(ReflectPoint(camPos, normal, planePos), normal, planePos);
  }

  // ---------------------------------------------------------------------
  // Published slot

  /** targetTextureID carries [Range(1, 4)]. */
  type TextureSlot = i: int | 1 <= i <= 4 witness 1

  const TexPrefix := "_PlanarReflectionsTex"

  /** The global shader property the probe publishes into. */
  function TexName(id: TextureSlot): (s: string)
    ensures |s| == |TexPrefix| + 1
    ensures s[..|TexPrefix|] == TexPrefix
    ensures s[|TexPrefix|] as int - '0' as int == id
  {
    TexPrefix + [('0' as int + id) as char]
  }

  /** Distinct slots publish under distinct names. */
  lemma TexNameInjective(a: TextureSlot, b: TextureSlot)
    requires TexName(a) == TexName(b)
    ensures a == b
  {
    assert TexName(a)[|TexPrefix|] == TexName(b)[|TexPrefix|];
  }

  // ---------------------------------------------------------------------
  // PreRender

  datatype ProbeState = ProbeState(probeExists: bool, cache: map<CameraId, Texture>, ignored: seq<CameraId>)

  /** What one PreRender call hands to the engine. */
  datatype RenderOutput = Skipped | Rendered(target: Texture, released: Option<Texture>, position: Vec3, published: string)

  datatype Camera = Camera(id: CameraId, kind: CameraType, pixelWidth: int, pixelHeight: int, position: Vec3)

  datatype ProbeConfig = ProbeConfig(slot: TextureSlot, renderInEditor: bool, quality: real)

  /** PreRender for one camera, given the plane normal GetNormal chose and
      the probe's own position. */
  function PreRender(st: ProbeState, cfg: ProbeConfig, cam: Camera, normal: Vec3, planePos: Vec3, freshHandle: int)
    : (res: (ProbeState, RenderOutput))
    ensures CheckCamera(cam.kind, cam.id, cfg.renderInEditor, st.ignored) <==> res.1.Skipped?
    ensures res.1.Skipped? ==> res.0 == st
    ensures res.1.Rendered? ==>
              res.0.probeExists && res.0.ignored == st.ignored
              && cam.id in res.0.cache && res.0.cache[cam.id] == res.1.target
              && res.1.target.width == TargetSize(cam.pixelWidth, cfg.quality)
              && res.1.target.height == TargetSize(cam.pixelHeight, cfg.quality)
              && res.1.published == TexName(cfg.slot)
              && res.1.position == ProbePosition(cam.position, normal, planePos)
  {
    if CheckCamera(cam.kind, cam.id, cfg.renderInEditor, st.ignored) then (st, Skipped)
    else
      var u := CreateRenderTexture(st.cache, cam.id, cam.pixelWidth, cam.pixelHeight, cfg.quality, freshHandle);
      (ProbeState(true, u.cache, st.ignored),
       Rendered(u.target, u.released, ProbePosition(cam.position, normal, planePos), TexName(cfg.slot)))
  }

  // ---------------------------------------------------------------------
  // Probe lookup

  datatype ProbeInfo = ProbeInfo(handle: int, targetTextureID: int)

  /** The indices, from i on, of the probes with the given id, ascending. */
  function MatchingFrom(probes: seq<ProbeInfo>, id: int, i: nat): (idx: seq<nat>)
    requires i <= |probes|
    ensures forall k :: 0 <= k < |idx| ==> i <= idx[k] < |probes| && probes[idx[k]].targetTextureID == id
    ensures forall k, l :: 0 <= k < l < |idx| ==> idx[k] < idx[l]
    ensures forall j :: i <= j < |probes| && probes[j].targetTextureID == id ==> j in idx
    decreases |probes| - i
  {
    if i == |probes| then []
    else if probes[i].targetTextureID == id then [i] + MatchingFrom(probes, id, i + 1)
    else MatchingFrom(probes, id, i + 1)
  }

  /** FindProbesRenderingTo: the probes with the given id, in discovery order. */
  function FindProbesRenderingTo(probes: seq<ProbeInfo>, id: int): (r: seq<ProbeInfo>)
    ensures forall p :: p in r ==> p in probes && p.targetTextureID == id
    ensures forall p :: p in probes && p.targetTextureID == id ==> p in r
    ensures |r| <= |probes|
    decreases |probes|
  {
    if |probes| == 0 then []
    else if probes[0].targetTextureID == id then [probes[0]] + FindProbesRenderingTo(probes[1..], id)
    else FindProbesRenderingTo(probes[1..], id)
  }

  /** The list is the ordered filter: its k-th element is the probe at the
      k-th matching index, so every match appears once, in discovery order. */
  lemma {:induction false} FindProbesIsOrderedFilter(probes: seq<ProbeInfo>, id: int, i: nat)
    requires i <= |probes|
    ensures var r := FindProbesRenderingTo(probes[i..], id);
            var idx := MatchingFrom(probes, id, i);
            |r| == |idx| && forall k :: 0 <= k < |r| ==> r[k] == probes[idx[k]]
    decreases |probes| - i
  {
    if i < |probes| {
      FindProbesIsOrderedFilter(probes, id, i + 1);
      var rest := FindProbesRenderingTo(probes[i + 1..], id);
      var restIdx := MatchingFrom(probes, id, i + 1);
      assert probes[i..][0] == probes[i];
      assert probes[i..][1..] == probes[i + 1..];
      if probes[i].targetTextureID == id {
        assert FindProbesRenderingTo(probes[i..], id) == [probes[i]] + rest;
        assert MatchingFrom(probes, id, i) == [i] + restIdx;
        PicksCons(probes, i, rest, restIdx);
      } else {
        assert FindProbesRenderingTo(probes[i..], id) == rest;
      }
    }
  }

  /** Prepending index i and probe i keeps a list the pick of its indices. */
  lemma PicksCons(probes: seq<ProbeInfo>, i: nat, rest: seq<ProbeInfo>, restIdx: seq<nat>)
    requires i < |probes|
    requires |rest| == |restIdx| && forall k :: 0 <= k < |rest| ==> restIdx[k] < |probes| && rest[k] == probes[restIdx[k]]
    ensures var r := [probes[i]] + rest;
            var idx := [i] + restIdx;
            |r| == |idx| && forall k :: 0 <= k < |r| ==> idx[k] < |probes| && r[k] == probes[idx[k]]
  {
    var r := [probes[i]] + rest;
    var idx := [i] + restIdx;
    forall k | 0 <= k < |r|
      ensures idx[k] < |probes| && r[k] == probes[idx[k]]
    {
      if k > 0 {
        assert r[k] == rest[k - 1] && idx[k] == restIdx[k - 1];
      }
    }
  }

  /** FindProbeRenderingTo: the first probe with the given id, or none; it is
      the head of the list lookup. */
  method FindProbeRenderingTo(probes: seq<ProbeInfo>, id: int) returns (r: Option<ProbeInfo>)
    ensures r.None? <==> forall k :: 0 <= k < |probes| ==> probes[k].targetTextureID != id
    ensures r.Some? ==> exists k :: 0 <= k < |probes| && probes[k] == r.value && probes[k].targetTextureID == id
                          && forall j :: 0 <= j < k ==> probes[j].targetTextureID != id
    ensures var all := FindProbesRenderingTo(probes, id);
            r == if |all| == 0 then None else Some(all[0])
  {
    var i := 0;
    while i < |probes|
      invariant 0 <= i <= |probes|
      invariant forall j :: 0 <= j < i ==> probes[j].targetTextureID != id
    {
      if probes[i].targetTextureID == id {
        FindProbeIsFirstOfList(probes, id, i);
        return Some(probes[i]);
      }
      i := i + 1;
    }
    FindProbesIsOrderedFilter(probes, id, 0);
    assert probes[0..] == probes;
    return None;
  }

  /** The single lookup agrees with the list lookup: the first matching
      index k starts the matching indices, and its probe heads the list. */
  lemma FindProbeIsFirstOfList(probes: seq<ProbeInfo>, id: int, k: int)
    requires 0 <= k < |probes| && probes[k].targetTextureID == id
    requires forall j :: 0 <= j < k ==> probes[j].targetTextureID != id
    ensures |MatchingFrom(probes, id, 0)| > 0 && MatchingFrom(probes, id, 0)[0] == k
    ensures |FindProbesRenderingTo(probes, id)| > 0 && FindProbesRenderingTo(probes, id)[0] == probes[k]
  {
    var idx := MatchingFrom(probes, id, 0);
    assert k in idx;
    FindProbesIsOrderedFilter(probes, id, 0);
    assert probes[0..] == probes;
  }
}
