/** Mirror: the reflection view matrix, the oblique near-plane projection and
    the per-frame render sequence of the mirror camera.  Matrices are over
    the reals; the camera render itself is an output event. */
module Mirror {
  import opened Geometry
  import opened Optional

  /** A 4x4 matrix stored by entries m<row><column>, as Matrix4x4. */
  datatype Mat4 = Mat4(
    m00: real, m01: real, m02: real, m03: real,
    m10: real, m11: real, m12: real, m13: real,
    m20: real, m21: real, m22: real, m23: real,
    m30: real, m31: real, m32: real, m33: real)

  datatype Vec4 = Vec4(x: real, y: real, z: real, w: real)

  function Dot4(a: Vec4, b: Vec4): real { a.x * b.x + a.y * b.y + a.z * b.z + a.w * b.w }

  function Row0(m: Mat4): Vec4 { Vec4(m.m00, m.m01, m.m02, m.m03) }
  function Row1(m: Mat4): Vec4 { Vec4(m.m10, m.m11, m.m12, m.m13) }
  function Row2(m: Mat4): Vec4 { Vec4(m.m20, m.m21, m.m22, m.m23) }
  function Row3(m: Mat4): Vec4 { Vec4(m.m30, m.m31, m.m32, m.m33) }

  /** Row i of the upper-left 3x3 block (the row without its translation entry). */
  function Linear0(m: Mat4): Vec3 { Vec3(m.m00, m.m01, m.m02) }
  function Linear1(m: Mat4): Vec3 { Vec3(m.m10, m.m11, m.m12) }
  function Linear2(m: Mat4): Vec3 { Vec3(m.m20, m.m21, m.m22) }

  /** Matrix4x4.MultiplyPoint3x4: the affine image of a point. */
  function ApplyPoint(m: Mat4, p: Vec3): Vec3
  {
    Vec3(Dot(Linear0(m), p) + m.m03, Dot(Linear1(m), p) + m.m13, Dot(Linear2(m), p) + m.m23)
  }

  /** The affine matrix with linear rows r0, r1, r2 and translation (t0, t1, t2). */
  function FromRows(r0: Vec3, t0: real, r1: Vec3, t1: real, r2: Vec3, t2: real): Mat4
  {
    Mat4(r0.x, r0.y, r0.z, t0, r1.x, r1.y, r1.z, t1, r2.x, r2.y, r2.z, t2, 0.0, 0.0, 0.0, 1.0)
  }

  /** The matrix times a column vector. */
  function Transform(m: Mat4, v: Vec4): Vec4
  {
    Vec4(Dot4(Row0(m), v), Dot4(Row1(m), v), Dot4(Row2(m), v), Dot4(Row3(m), v))
  }

  /** Matrix product a * b. */
  function Mul(a: Mat4, b: Mat4): Mat4
  {
    var c0 := Vec4(b.m00, b.m10, b.m20, b.m30);
    var c1 := Vec4(b.m01, b.m11, b.m21, b.m31);
    var c2 := Vec4(b.m02, b.m12, b.m22, b.m32);
    var c3 := Vec4(b.m03, b.m13, b.m23, b.m33);
    Mat4(Dot4(Row0(a), c0), Dot4(Row0(a), c1), Dot4(Row0(a), c2), Dot4(Row0(a), c3),
         Dot4(Row1(a), c0), Dot4(Row1(a), c1), Dot4(Row1(a), c2), Dot4(Row1(a), c3),
         Dot4(Row2(a), c0), Dot4(Row2(a), c1), Dot4(Row2(a), c2), Dot4(Row2(a), c3),
         Dot4(Row3(a), c0), Dot4(Row3(a), c1), Dot4(Row3(a), c2), Dot4(Row3(a), c3))
  }

  /** UnityEngine.Plane: unit normal n and distance, the plane n.x + distance = 0. */
  datatype Plane = Plane(normal: Vec3, distance: real)

  /** new Plane(normal, point): distance = -dot(normal, point). */
  function PlaneThrough(normal: Vec3, point: Vec3): (p: Plane)
    ensures p.normal == normal
    ensures Dot(p.normal, point) + p.distance == 0.0
  {
    Plane(normal, -Dot(normal, point))
  }

  /** The reflection matrix built from a plane and a translation term t,
      the entry pattern of CalcReflectionMatrix with d := t: row i is
      e_i - 2 n_i n with translation -2 n_i t. */
  function ReflectionWith(n: Vec3, t: real): Mat4
  {
    FromRows(Sub(Right, Scale(2.0 * n.x, n)), -2.0 * n.x * t,
             Sub(Up, Scale(2.0 * n.y, n)), -2.0 * n.y * t,
             Sub(Forward, Scale(2.0 * n.z, n)), -2.0 * n.z * t)
  }

  /** CalcReflectionMatrix as written: d := -plane.distance. */
  function CalcReflectionMatrix(p: Plane): (m: Mat4)
    ensures Row3(m) == Vec4(0.0, 0.0, 0.0, 1.0)
    ensures m.m01 == m.m10 && m.m02 == m.m20 && m.m12 == m.m21
    ensures m.m00 == 1.0 - 2.0 * p.normal.x * p.normal.x
    ensures m.m11 == 1.0 - 2.0 * p.normal.y * p.normal.y
    ensures m.m22 == 1.0 - 2.0 * p.normal.z * p.normal.z
    ensures m.m03 == -2.0 * p.normal.x * -p.distance
    ensures m.m13 == -2.0 * p.normal.y * -p.distance
    ensures m.m23 == -2.0 * p.normal.z * -p.distance
  {
    ReflectionWith(p.normal, -p.distance)
  }

  /** The reflection across the plane n.x + distance = 0: the same entries
      with d := plane.distance. */
  function ReflectionMatrix(p: Plane): (m: Mat4)
    ensures Row3(m) == Vec4(0.0, 0.0, 0.0, 1.0)
    ensures m.m01 == m.m10 && m.m02 == m.m20 && m.m12 == m.m21
    ensures m.m03 == -2.0 * p.normal.x * p.distance
    ensures m.m13 == -2.0 * p.normal.y * p.distance
    ensures m.m23 == -2.0 * p.normal.z * p.distance
  {
    ReflectionWith(p.normal, p.distance)
  }

  /** The rows of ReflectionWith: row i is e_i - 2 n_i n with translation -2 n_i t. */
  lemma ReflectionWithRows(n: Vec3, t: real)
    ensures Linear0(ReflectionWith(n, t)) == Sub(Right, Scale(2.0 * n.x, n)) && ReflectionWith(n, t).m03 == -2.0 * n.x * t
    ensures Linear1(ReflectionWith(n, t)) == Sub(Up, Scale(2.0 * n.y, n)) && ReflectionWith(n, t).m13 == -2.0 * n.y * t
    ensures Linear2(ReflectionWith(n, t)) == Sub(Forward, Scale(2.0 * n.z, n)) && ReflectionWith(n, t).m23 == -2.0 * n.z * t
  {
  }

  /** The product with e - k n is the product with e less k times the product with n. */
  lemma DotSubScale(e: Vec3, k: real, n: Vec3, x: Vec3)
    ensures Dot(Sub(e, Scale(k, n)), x) == Dot(e, x) - k * Dot(n, x)
  {
    DotSubScaleReals(e.x, e.y, e.z, k, n.x, n.y, n.z, x.x, x.y, x.z);
  }

  lemma DotSubScaleReals(ex: real, ey: real, ez: real, k: real, nx: real, ny: real, nz: real,
                         xx: real, xy: real, xz: real)
    ensures (ex - k * nx) * xx + (ey - k * ny) * xy + (ez - k * nz) * xz
            == (ex * xx + ey * xy + ez * xz) - k * (nx * xx + ny * xy + nz * xz)
  {
  }

  lemma UnitDots(x: Vec3)
    ensures Dot(Right, x) == x.x && Dot(Up, x) == x.y && Dot(Forward, x) == x.z
  {
  }

  lemma RowCombine(xa: real, a: real, d: real, t: real)
    ensures xa - (2.0 * a) * d + -2.0 * a * t == xa - (2.0 * (d + t)) * a
  {
  }

  /** One row of a reflection matrix applied to x: with e.x = x_a, the row
      e - 2 a n and translation -2 a t give x_a - 2 (n.x + t) a. */
  lemma RowImage(e: Vec3, a: real, n: Vec3, x: Vec3, t: real, xa: real)
    requires Dot(e, x) == xa
    ensures Dot(Sub(e, Scale(2.0 * a, n)), x) + -2.0 * a * t == xa - (2.0 * (Dot(n, x) + t)) * a
  {
    DotSubScale(e, 2.0 * a, n, x);
    RowCombine(Dot(e, x), a, Dot(n, x), t);
  }

  lemma SubScaleEntries(x: Vec3, d: real, t: real, n: Vec3)
    ensures Sub(x, Scale(2.0 * (d + t), n)).x == x.x - (2.0 * (d + t)) * n.x
    ensures Sub(x, Scale(2.0 * (d + t), n)).y == x.y - (2.0 * (d + t)) * n.y
    ensures Sub(x, Scale(2.0 * (d + t), n)).z == x.z - (2.0 * (d + t)) * n.z
  {
  }

  /** Each coordinate of the image under ReflectionWith: x_i - 2 (n.x + t) n_i. */
  lemma ReflectionWithApplyX(n: Vec3, t: real, x: Vec3)
    ensures ApplyPoint(ReflectionWith(n, t), x).x == Sub(x, Scale(2.0 * (Dot(n, x) + t), n)).x
  {
    ReflectionWithRows(n, t);
    UnitDots(x);
    RowImage(Right, n.x, n, x, t, x.x);
    SubScaleEntries(x, Dot(n, x), t, n);
  }

  lemma ReflectionWithApplyY(n: Vec3, t: real, x: Vec3)
    ensures ApplyPoint(ReflectionWith(n, t), x).y == Sub(x, Scale(2.0 * (Dot(n, x) + t), n)).y
  {
    ReflectionWithRows(n, t);
    UnitDots(x);
    RowImage(Up, n.y, n, x, t, x.y);
    SubScaleEntries(x, Dot(n, x), t, n);
  }

  lemma ReflectionWithApplyZ(n: Vec3, t: real, x: Vec3)
    ensures ApplyPoint(ReflectionWith(n, t), x).z == Sub(x, Scale(2.0 * (Dot(n, x) + t), n)).z
  {
    ReflectionWithRows(n, t);
    UnitDots(x);
    RowImage(Forward, n.z, n, x, t, x.z);
    SubScaleEntries(x, Dot(n, x), t, n);
  }

  lemma SameCoordinates(v: Vec3, w: Vec3)
    requires v.x == w.x && v.y == w.y && v.z == w.z
    ensures v == w
  {
  }

  /** The image of a point under a ReflectionWith matrix: x - 2 n (n.x + t). */
  lemma ReflectionWithApply(n: Vec3, t: real, x: Vec3)
    ensures ApplyPoint(ReflectionWith(n, t), x) == Sub(x, Scale(2.0 * (Dot(n, x) + t), n))
  {
    ReflectionWithApplyX(n, t, x);
    ReflectionWithApplyY(n, t, x);
    ReflectionWithApplyZ(n, t, x);
    SameCoordinates(ApplyPoint(ReflectionWith(n, t), x), Sub(x, Scale(2.0 * (Dot(n, x) + t), n)));
  }

  /** The corrected matrix maps every point to its mirror image across the
      plane through point with unit normal n. */
  lemma ReflectionMatrixReflects(n: Vec3, point: Vec3, x: Vec3)
    ensures ApplyPoint(ReflectionMatrix(PlaneThrough(n, point)), x) == ReflectPoint(x, n, point)
  {
    var d := -Dot(n, point);
    var s := Dot(n, Sub(x, point));
    ReflectionWithApply(n, d, x);
    DotSub(n, x, point);
    assert Dot(n, x) + d == s;
    ScaleScale(2.0, s, n);
  }

  /** The corrected matrix leaves every point of the mirror plane in place. */
  lemma ReflectionMatrixFixesPlane(n: Vec3, point: Vec3, x: Vec3)
    requires Dot(n, Sub(x, point)) == 0.0
    ensures ApplyPoint(ReflectionMatrix(PlaneThrough(n, point)), x) == x
  {
    var d := -Dot(n, point);
    assert ReflectionMatrix(PlaneThrough(n, point)) == ReflectionWith(n, d);
    ReflectionWithApply(n, d, x);
    DotSub(n, x, point);
    assert 2.0 * (Dot(n, x) + d) == 0.0;
    assert Scale(0.0, n) == Zero;
    assert Sub(x, Zero) == x;
  }

  /** As written, the matrix moves the mirror's own point by 4 n (n.point):
      it keeps that point in place exactly when the mirror plane passes
      through the origin.  (Mirror at z = 1: its point (0,0,1) goes to
      (0,0,-3).) */
  lemma CalcReflectionMatrixMovesPlanePoint(n: Vec3, point: Vec3)
    requires IsUnit(n)
    ensures ApplyPoint(CalcReflectionMatrix(PlaneThrough(n, point)), point) == Sub(point, Scale(4.0 * Dot(n, point), n))
    ensures ApplyPoint(CalcReflectionMatrix(PlaneThrough(n, point)), point) == point <==> Dot(n, point) == 0.0
  {
    var c := Dot(n, point);
    var pl := PlaneThrough(n, point);
    assert CalcReflectionMatrix(pl) == ReflectionWith(n, c);
    ReflectionWithApply(n, c, point);
    assert 2.0 * (c + c) == 4.0 * c;
    if Sub(point, Scale(4.0 * c, n)) == point {
      assert Scale(4.0 * c, n) == Zero;
      ScaleZero(4.0 * c, n);
    }
  }

  lemma ScaleZero(k: real, n: Vec3)
    requires IsUnit(n) && Scale(k, n) == Zero
    ensures k == 0.0
  {
    calc {
      k * k;
      k * k * SqrMagnitude(n);
      (k * n.x) * (k * n.x) + (k * n.y) * (k * n.y) + (k * n.z) * (k * n.z);
      0.0;
    }
  }

  /** Moving along n by -k changes the product with n by -k |n|^2. */
  lemma DotAlongNormal(n: Vec3, x: Vec3, k: real)
    ensures Dot(n, Sub(x, Scale(k, n))) == Dot(n, x) - k * SqrMagnitude(n)
  {
  }

  /** Both versions are involutions for a unit normal: applying the matrix
      twice gives the point back. */
  lemma ReflectionWithInvolution(n: Vec3, t: real, x: Vec3)
    requires IsUnit(n)
    ensures ApplyPoint(ReflectionWith(n, t), ApplyPoint(ReflectionWith(n, t), x)) == x
  {
    var s := Dot(n, x) + t;
    var y := ApplyPoint(ReflectionWith(n, t), x);
    ReflectionWithApply(n, t, x);
    assert y == Sub(x, Scale(2.0 * s, n));
    DotAlongNormal(n, x, 2.0 * s);
    assert Dot(n, y) + t == -s;
    ReflectionWithApply(n, t, y);
    assert Scale(2.0 * (Dot(n, y) + t), n) == Scale(-2.0 * s, n);
  }

  // ---------------------------------------------------------------------
  // Oblique near plane

  /** The preconditions are the divisions the source performs without a guard. */
  predicate ObliqueDefined(proj: Mat4, plane: Vec4)
  {
    proj.m00 != 0.0 && proj.m11 != 0.0 && proj.m23 != 0.0 && Dot4(plane, ObliqueCorner(proj, plane)) != 0.0
  }

  /** The clip-space corner point q opposite the plane. */
  function ObliqueCorner(proj: Mat4, plane: Vec4): Vec4
    requires proj.m00 != 0.0 && proj.m11 != 0.0 && proj.m23 != 0.0
  {
    Vec4((Sign(plane.x) + proj.m02) / proj.m00,
         (Sign(plane.y) + proj.m12) / proj.m11,
         -1.0,
         (1.0 + proj.m22) / proj.m23)
  }

  /** The factor 2 / dot(plane, q) applied to the plane. */
  function ObliqueScale(proj: Mat4, plane: Vec4): (k: real)
    requires ObliqueDefined(proj, plane)
    ensures k != 0.0
    ensures k * Dot4(plane, ObliqueCorner(proj, plane)) == 2.0
  {
    2.0 / Dot4(plane, ObliqueCorner(proj, plane))
  }

  /** CalculateObliqueMatrix: only the third row is replaced, by a non-zero
      multiple of the plane plus 1 in z, scaled so that its product with the
      corner q is 2. */
  function CalculateObliqueMatrix(proj: Mat4, plane: Vec4): (m: Mat4)
    requires ObliqueDefined(proj, plane)
    ensures Row0(m) == Row0(proj) && Row1(m) == Row1(proj) && Row3(m) == Row3(proj)
    ensures var k := ObliqueScale(proj, plane);
            Row2(m) == Vec4(plane.x * k, plane.y * k, plane.z * k + 1.0, plane.w * k)
    ensures Dot4(Vec4(m.m20, m.m21, m.m22 - 1.0, m.m23), ObliqueCorner(proj, plane)) == 2.0
  {
    var q := ObliqueCorner(proj, plane);
    var k := ObliqueScale(proj, plane);
    var c := Vec4(plane.x * k, plane.y * k, plane.z * k, plane.w * k);
    assert Dot4(c, q) == k * Dot4(plane, q);
    proj.(m20 := c.x, m21 := c.y, m22 := c.z + 1.0, m23 := c.w)
  }

  /** With a perspective bottom row (0, 0, -1, 0), a view-space point on the
      clip plane lands on the near plane: clip z = -clip w. */
  lemma ObliquePlaneIsNear(proj: Mat4, plane: Vec4, v: Vec3)
    requires ObliqueDefined(proj, plane)
    requires Row3(proj) == Vec4(0.0, 0.0, -1.0, 0.0)
    requires Dot4(plane, Vec4(v.x, v.y, v.z, 1.0)) == 0.0
    ensures var c := Transform(CalculateObliqueMatrix(proj, plane), Vec4(v.x, v.y, v.z, 1.0));
            c.z == -c.w
  {
    var m := CalculateObliqueMatrix(proj, plane);
    var k := ObliqueScale(proj, plane);
    var pv := Vec4(v.x, v.y, v.z, 1.0);
    calc {
      Dot4(Row2(m), pv);
      k * Dot4(plane, pv) + v.z;
      v.z;
    }
  }

  // ---------------------------------------------------------------------
  // LateUpdate

  datatype CameraState = CameraState(view: Mat4, projection: Mat4, orthographic: bool, orthographicSize: real)

  datatype RenderEvent = SetInvertCulling(on: bool) | RenderMirror(camera: CameraState)

  /** One LateUpdate.  mainCam is Camera.main; mirrorCam is the hidden
      mirror camera (None once destroyed); normal and pos give the mirror
      plane in world space.  Returns the mirror camera afterwards, the
      engine calls in order, and the final GL.invertCulling. */
  function LateUpdate(mainCam: Option<CameraState>, mirrorCam: Option<CameraState>, normal: Vec3, pos: Vec3,
                      invertCulling: bool): (res: (Option<CameraState>, seq<RenderEvent>, bool))
    requires mainCam.Some? && mirrorCam.Some? ==>
               ObliqueDefined(mainCam.value.projection, Vec4(normal.x, normal.y, normal.z, -Dot(normal, pos)))
    ensures mainCam.None? || mirrorCam.None? ==> res == (mirrorCam, [], invertCulling)
    ensures mainCam.Some? && mirrorCam.Some? ==>
              && res.0.Some?
              && |res.1| == 3
              && res.1[0] == SetInvertCulling(true)
              && res.1[1] == RenderMirror(res.0.value)
              && res.1[2] == SetInvertCulling(false)
              && !res.2
              && res.0.value.orthographic == mainCam.value.orthographic
              && (mainCam.value.orthographic ==> res.0.value.orthographicSize == mainCam.value.orthographicSize)
              && res.0.value.view == ProgramView(normal, pos, mainCam.value.view)
              && res.0.value.projection
                 == Mul(mainCam.value.projection,
                        CalculateObliqueMatrix(mainCam.value.projection,
                                               Vec4(normal.x, normal.y, normal.z, -Dot(normal, pos))))
              && Row3(res.0.value.view) == Row3(mainCam.value.view)
  {
    if mainCam.None? || mirrorCam.None? then (mirrorCam, [], invertCulling)
    else
      var src := mainCam.value;
      // CopyFrom copies the source camera, orthographic settings included.
      var cam := src;
      var plane := PlaneThrough(normal, pos);
      // The reflection is multiplied on the left of the source view, as
      // written (see ProgramViewKeepsCamera and MirrorView).
      var view := Mul(CalcReflectionMatrix(plane), src.view);
      var cam := cam.(view := view);
      var cam := if src.orthographic then cam.(orthographic := true, orthographicSize := src.orthographicSize) else cam;
      var clip := Vec4(normal.x, normal.y, normal.z, -Dot(normal, pos));
      var cam := cam.(projection := Mul(src.projection, CalculateObliqueMatrix(src.projection, clip)));
      (Some(cam), [SetInvertCulling(true), RenderMirror(cam), SetInvertCulling(false)], false)
  }

  /** The view the program builds: CalcReflectionMatrix(plane) times the
      source camera's view, the reflection on the left. */
  function ProgramView(normal: Vec3, pos: Vec3, view: Mat4): (m: Mat4)
    ensures Row3(m) == Row3(view)
  {
    Mul(CalcReflectionMatrix(PlaneThrough(normal, pos)), view)
  }

  /** The mirror camera's view: the source view applied to the reflection
      of the world across the mirror plane, the reflection on the right. */
  function MirrorView(normal: Vec3, pos: Vec3, view: Mat4): (m: Mat4)
    ensures Row3(view) == Vec4(0.0, 0.0, 0.0, 1.0) ==> Row3(m) == Row3(view)
  {
    Mul(view, ReflectionMatrix(PlaneThrough(normal, pos)))
  }

  /** One coordinate of MulApplyPoint: the row (a0, a1, a2, a3) of the left
      factor against an affine right factor b. */
  lemma AffineRowApply(a0: real, a1: real, a2: real, a3: real, b: Mat4, p: Vec3)
    requires Row3(b) == Vec4(0.0, 0.0, 0.0, 1.0)
    ensures (a0 * b.m00 + a1 * b.m10 + a2 * b.m20 + a3 * b.m30) * p.x
            + (a0 * b.m01 + a1 * b.m11 + a2 * b.m21 + a3 * b.m31) * p.y
            + (a0 * b.m02 + a1 * b.m12 + a2 * b.m22 + a3 * b.m32) * p.z
            + (a0 * b.m03 + a1 * b.m13 + a2 * b.m23 + a3 * b.m33)
            == a0 * ApplyPoint(b, p).x + a1 * ApplyPoint(b, p).y + a2 * ApplyPoint(b, p).z + a3
  {
    assert b.m30 == 0.0 && b.m31 == 0.0 && b.m32 == 0.0 && b.m33 == 1.0;
  }

  lemma MulApplyPointX(a: Mat4, b: Mat4, p: Vec3)
    requires Row3(b) == Vec4(0.0, 0.0, 0.0, 1.0)
    ensures ApplyPoint(Mul(a, b), p).x == ApplyPoint(a, ApplyPoint(b, p)).x
  {
    AffineRowApply(a.m00, a.m01, a.m02, a.m03, b, p);
  }

  lemma MulApplyPointY(a: Mat4, b: Mat4, p: Vec3)
    requires Row3(b) == Vec4(0.0, 0.0, 0.0, 1.0)
    ensures ApplyPoint(Mul(a, b), p).y == ApplyPoint(a, ApplyPoint(b, p)).y
  {
    AffineRowApply(a.m10, a.m11, a.m12, a.m13, b, p);
  }

  lemma MulApplyPointZ(a: Mat4, b: Mat4, p: Vec3)
    requires Row3(b) == Vec4(0.0, 0.0, 0.0, 1.0)
    ensures ApplyPoint(Mul(a, b), p).z == ApplyPoint(a, ApplyPoint(b, p)).z
  {
    AffineRowApply(a.m20, a.m21, a.m22, a.m23, b, p);
  }

  /** Applying a product to a point applies the factors in turn, the right
      one first, when the right one is affine. */
  lemma MulApplyPoint(a: Mat4, b: Mat4, p: Vec3)
    requires Row3(b) == Vec4(0.0, 0.0, 0.0, 1.0)
    ensures ApplyPoint(Mul(a, b), p) == ApplyPoint(a, ApplyPoint(b, p))
  {
    MulApplyPointX(a, b, p);
    MulApplyPointY(a, b, p);
    MulApplyPointZ(a, b, p);
    SameCoordinates(ApplyPoint(Mul(a, b), p), ApplyPoint(a, ApplyPoint(b, p)));
  }

  /** The mirror view sees the mirror image of the world: it maps the
      reflection of every point x to where the source view maps x. */
  lemma MirrorViewSeesReflection(normal: Vec3, pos: Vec3, view: Mat4, x: Vec3)
    requires IsUnit(normal)
    ensures ApplyPoint(MirrorView(normal, pos, view), ReflectPoint(x, normal, pos)) == ApplyPoint(view, x)
  {
    var r := ReflectionMatrix(PlaneThrough(normal, pos));
    var y := ReflectPoint(x, normal, pos);
    MulApplyPoint(view, r, y);
    ReflectionMatrixReflects(normal, pos, y);
    ReflectInvolution(x, normal, pos);
  }

  /** So the mirror camera sits at the reflection of the source camera:
      the point the source view sends to the eye, reflected, is sent to
      the eye. */
  lemma MirrorViewCameraIsReflected(normal: Vec3, pos: Vec3, view: Mat4, eye: Vec3)
    requires IsUnit(normal) && ApplyPoint(view, eye) == Zero
    ensures ApplyPoint(MirrorView(normal, pos, view), ReflectPoint(eye, normal, pos)) == Zero
  {
    MirrorViewSeesReflection(normal, pos, view, eye);
  }

  /** As written, the reflection acts after the view, in camera space: for a
      mirror plane through the world origin the program's view still sends
      the source camera's own position to the eye, so the mirror camera
      does not move to the reflected position (ReflectMovesOffPlane). */
  lemma ProgramViewKeepsCamera(normal: Vec3, pos: Vec3, view: Mat4, eye: Vec3)
    requires Dot(normal, pos) == 0.0
    requires Row3(view) == Vec4(0.0, 0.0, 0.0, 1.0) && ApplyPoint(view, eye) == Zero
    ensures ApplyPoint(ProgramView(normal, pos, view), eye) == Zero
  {
    var m := CalcReflectionMatrix(PlaneThrough(normal, pos));
    MulApplyPoint(m, view, eye);
    assert m.m03 == 0.0 && m.m13 == 0.0 && m.m23 == 0.0;
    ApplyZero(m);
  }

  /** The image of the origin is the translation column. */
  lemma ApplyZero(m: Mat4)
    ensures ApplyPoint(m, Zero) == Vec3(m.m03, m.m13, m.m23)
  {
  }

  /** A point off the mirror plane is moved by the reflection. */
  lemma ReflectMovesOffPlane(normal: Vec3, pos: Vec3, x: Vec3)
    requires IsUnit(normal)
    ensures ReflectPoint(x, normal, pos) == x <==> Dot(normal, Sub(x, pos)) == 0.0
  {
    var s := Dot(normal, Sub(x, pos));
    var v := Scale(2.0, Scale(s, normal));
    assert ReflectPoint(x, normal, pos) == Sub(x, v);
    ScaleScale(2.0, s, normal);
    if Sub(x, v) == x {
      ReflectFixedPointScale(x, v);
      ScaleZero(2.0 * s, normal);
    } else {
      SubZero(x, v);
    }
  }

  lemma ReflectFixedPointScale(x: Vec3, v: Vec3)
    requires Sub(x, v) == x
    ensures v == Zero
  {
  }

  lemma SubZero(x: Vec3, v: Vec3)
    requires Sub(x, v) != x
    ensures v != Zero
  {
  }

  /** The input of the finding: mirror plane z = 0 through the origin,
      source camera at (0, 0, 5).  The program's view keeps the eye at
      (0, 0, 5); MirrorViewExample puts it at (0, 0, -5). */
  lemma ProgramViewCounterexample(view: Mat4)
    requires Row3(view) == Vec4(0.0, 0.0, 0.0, 1.0) && ApplyPoint(view, Vec3(0.0, 0.0, 5.0)) == Zero
    ensures ApplyPoint(ProgramView(Forward, Zero, view), Vec3(0.0, 0.0, 5.0)) == Zero
  {
    ProgramViewKeepsCamera(Forward, Zero, view, Vec3(0.0, 0.0, 5.0));
  }

  /** The mirror view of the same input has its eye at (0, 0, -5). */
  lemma MirrorViewExample(view: Mat4)
    requires ApplyPoint(view, Vec3(0.0, 0.0, 5.0)) == Zero
    ensures ApplyPoint(MirrorView(Forward, Zero, view), Vec3(0.0, 0.0, -5.0)) == Zero
  {
    MirrorViewCameraIsReflected(Forward, Zero, view, Vec3(0.0, 0.0, 5.0));
    ReflectAcrossZPlane(5.0);
  }

  lemma ReflectAcrossZPlane(z: real)
    ensures ReflectPoint(Vec3(0.0, 0.0, z), Forward, Zero) == Vec3(0.0, 0.0, -z)
  {
  }

  /** Correcting only the sign of the translation (ReflectionMatrix in place
      of CalcReflectionMatrix, same operand order) leaves the program's view
      of an affine source view unchanged iff the mirror plane passes through
      the world origin; otherwise the two differ in their translation column
      by 4 n (n.pos). */
  lemma ReflectedViewMatchesProgram(normal: Vec3, pos: Vec3, view: Mat4)
    requires IsUnit(normal)
    requires Row3(view) == Vec4(0.0, 0.0, 0.0, 1.0)
    ensures Mul(ReflectionMatrix(PlaneThrough(normal, pos)), view) == ProgramView(normal, pos, view)
            <==> Dot(normal, pos) == 0.0
  {
    var c := Dot(normal, pos);
    var a := Mul(ReflectionWith(normal, -c), view);
    var b := Mul(ReflectionWith(normal, c), view);
    assert Mul(ReflectionMatrix(PlaneThrough(normal, pos)), view) == a;
    assert ProgramView(normal, pos, view) == b;
    TranslationDifference(normal, c, view);
    if a == b {
      assert normal.x * c == 0.0 && normal.y * c == 0.0 && normal.z * c == 0.0;
      UnitTimesZero(normal, c);
    }
  }

  /** Changing the translation term of ReflectionWith from t to -t changes the
      product with an affine matrix only in the translation column, by
      -4 n_i t in row i. */
  lemma TranslationDifference(n: Vec3, t: real, v: Mat4)
    requires Row3(v) == Vec4(0.0, 0.0, 0.0, 1.0)
    ensures var a := Mul(ReflectionWith(n, -t), v);
            var b := Mul(ReflectionWith(n, t), v);
            && a.m03 - b.m03 == 4.0 * n.x * t
            && a.m13 - b.m13 == 4.0 * n.y * t
            && a.m23 - b.m23 == 4.0 * n.z * t
            && (t == 0.0 ==> a == b)
  {
    var ra := ReflectionWith(n, -t);
    var rb := ReflectionWith(n, t);
    MulTranslationColumn(ra, rb, v);
    assert ra.m03 - rb.m03 == 4.0 * n.x * t;
    assert ra.m13 - rb.m13 == 4.0 * n.y * t;
    assert ra.m23 - rb.m23 == 4.0 * n.z * t;
    if t == 0.0 {
      assert -t == t;
    }
  }

  /** Two matrices that agree except in the translation column give products
      with an affine matrix that differ by exactly that column. */
  lemma MulTranslationColumn(a: Mat4, b: Mat4, v: Mat4)
    requires Row3(v) == Vec4(0.0, 0.0, 0.0, 1.0)
    requires Linear0(a) == Linear0(b) && Linear1(a) == Linear1(b) && Linear2(a) == Linear2(b)
    ensures Mul(a, v).m03 - Mul(b, v).m03 == a.m03 - b.m03
    ensures Mul(a, v).m13 - Mul(b, v).m13 == a.m13 - b.m13
    ensures Mul(a, v).m23 - Mul(b, v).m23 == a.m23 - b.m23
  {
  }

  lemma UnitTimesZero(n: Vec3, c: real)
    requires IsUnit(n)
    requires n.x * c == 0.0 && n.y * c == 0.0 && n.z * c == 0.0
    ensures c == 0.0
  {
    calc {
      c * c;
      c * c * SqrMagnitude(n);
      (n.x * c) * (n.x * c) + (n.y * c) * (n.y * c) + (n.z * c) * (n.z * c);
      0.0;
    }
  }
}
