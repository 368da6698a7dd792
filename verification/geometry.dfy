/** Vectors over the reals and the scalar helpers of Unity's Mathf that the
    game code leans on (Abs, Min, Max, Clamp, Clamp01, Sign).  Floats are
    modelled as exact reals throughout the project. */
module Geometry {

  datatype Vec3 = Vec3(x: real, y: real, z: real)

  const Zero := Vec3(0.0, 0.0, 0.0)
  const Up := Vec3(0.0, 1.0, 0.0)
  const Right := Vec3(1.0, 0.0, 0.0)
  const Forward := Vec3(0.0, 0.0, 1.0)

  function Add(a: Vec3, b: Vec3): Vec3 { Vec3(a.x + b.x, a.y + b.y, a.z + b.z) }
  function Sub(a: Vec3, b: Vec3): Vec3 { Vec3(a.x - b.x, a.y - b.y, a.z - b.z) }
  function Scale(k: real, a: Vec3): Vec3 { Vec3(k * a.x, k * a.y, k * a.z) }
  function Dot(a: Vec3, b: Vec3): real { a.x * b.x + a.y * b.y + a.z * b.z }
  function SqrMagnitude(a: Vec3): real { Dot(a, a) }

  predicate IsUnit(n: Vec3) { SqrMagnitude(n) == 1.0 }

  function Abs(a: real): (r: real)
    ensures r >= 0.0
    ensures r == a || r == -a
  {
    if a < 0.0 then -a else a
  }

  function Min(a: real, b: real): (r: real)
    ensures r <= a && r <= b
    ensures r == a || r == b
  {
    if a <= b then a else b
  }

  function Max(a: real, b: real): (r: real)
    ensures r >= a && r >= b
    ensures r == a || r == b
  {
    if a >= b then a else b
  }

  /** Mathf.Clamp for floats: the lower bound is compared first, so an
      inverted pair (lo > hi) yields lo. */
  function Clamp(v: real, lo: real, hi: real): (r: real)
    ensures lo <= hi ==> lo <= r <= hi
    ensures lo <= v <= hi ==> r == v
  {
    if v < lo then lo else if v > hi then hi else v
  }

  function Clamp01(v: real): (r: real)
    ensures 0.0 <= r <= 1.0
    ensures 0.0 <= v <= 1.0 ==> r == v
  {
    Clamp(v, 0.0, 1.0)
  }

  /** Mathf.Clamp's int overload, used on list indices. Dafny has no
      overloading across int and real, so the two overloads are two
      functions with the same shape. */
  function ClampInt(v: int, lo: int, hi: int): (r: int)
    ensures lo <= hi ==> lo <= r <= hi
    ensures lo <= v <= hi ==> r == v
  {
    if v < lo then lo else if v > hi then hi else v
  }

  /** Mathf.Sign: zero counts as positive. */
  function Sign(v: real): (r: real)
    ensures r == 1.0 || r == -1.0
    ensures r == 1.0 <==> v >= 0.0
  {
    if v >= 0.0 then 1.0 else -1.0
  }

  /** C#'s (int) cast of a float: truncation toward zero. */
  function Truncate(v: real): (r: int)
    ensures v >= 0.0 ==> r as real <= v < r as real + 1.0
    ensures v < 0.0 ==> r as real - 1.0 < v <= r as real
  {
    if v >= 0.0 then v.Floor else -((-v).Floor)
  }

  /** The dot product distributes over a difference. */
  lemma DotSub(n: Vec3, a: Vec3, b: Vec3)
    ensures Dot(n, Sub(a, b)) == Dot(n, a) - Dot(n, b)
  {
    DotSubReals(n.x, n.y, n.z, a.x, a.y, a.z, b.x, b.y, b.z);
  }

  lemma DotSubReals(nx: real, ny: real, nz: real, px: real, py: real, pz: real, qx: real, qy: real, qz: real)
    ensures nx * (px - qx) + ny * (py - qy) + nz * (pz - qz) == (nx * px + ny * py + nz * pz) - (nx * qx + ny * qy + nz * qz)
  {
  }

  /** Scaling twice is scaling by the product. */
  lemma ScaleScale(k: real, s: real, v: Vec3)
    ensures Scale(k * s, v) == Scale(k, Scale(s, v))
  {
    MulAssoc(k, s, v.x);
    MulAssoc(k, s, v.y);
    MulAssoc(k, s, v.z);
  }

  lemma MulAssoc(a: real, b: real, c: real)
    ensures (a * b) * c == a * (b * c)
  {
  }

  /** The reflection of point p across the plane through planePoint with unit
      normal n: p - 2 n <n, p - planePoint>. */
  function ReflectPoint(p: Vec3, n: Vec3, planePoint: Vec3): Vec3
  {
    Sub(p, Scale(2.0, Scale(Dot(n, Sub(p, planePoint)), n)))
  }

  /** The signed distance of p from the plane is negated by the reflection. */
  lemma ReflectNegatesDistance(p: Vec3, n: Vec3, planePoint: Vec3)
    requires IsUnit(n)
    ensures Dot(n, Sub(ReflectPoint(p, n, planePoint), planePoint)) == -Dot(n, Sub(p, planePoint))
  {
    var s := Dot(n, Sub(p, planePoint));
    var q := ReflectPoint(p, n, planePoint);
    calc {
      Dot(n, Sub(q, planePoint));
      n.x * (p.x - planePoint.x - 2.0 * s * n.x) + n.y * (p.y - planePoint.y - 2.0 * s * n.y)
        + n.z * (p.z - planePoint.z - 2.0 * s * n.z);
      s - 2.0 * s * (n.x * n.x + n.y * n.y + n.z * n.z);
      -s;
    }
  }

  /** Reflecting twice across the same plane gives the point back. */
  lemma ReflectInvolution(p: Vec3, n: Vec3, planePoint: Vec3)
    requires IsUnit(n)
    ensures ReflectPoint(ReflectPoint(p, n, planePoint), n, planePoint) == p
  {
    var s := Dot(n, Sub(p, planePoint));
    var q := ReflectPoint(p, n, planePoint);
    ReflectNegatesDistance(p, n, planePoint);
    assert Dot(n, Sub(q, planePoint)) == -s;
  }

  /** The midpoint of p and its image lies on the plane. */
  lemma ReflectMidpointOnPlane(p: Vec3, n: Vec3, planePoint: Vec3)
    requires IsUnit(n)
    ensures Dot(n, Sub(Scale(0.5, Add(p, ReflectPoint(p, n, planePoint))), planePoint)) == 0.0
  {
    var s := Dot(n, Sub(p, planePoint));
    var q := ReflectPoint(p, n, planePoint);
    ReflectNegatesDistance(p, n, planePoint);
    calc {
      Dot(n, Sub(Scale(0.5, Add(p, q)), planePoint));
      0.5 * (Dot(n, Sub(p, planePoint)) + Dot(n, Sub(q, planePoint)));
      0.5 * (s - s);
      0.0;
    }
  }

  // ---------------------------------------------------------------------
  // Normalization

  /** Vector3.kEpsilon squared: a vector of length at most 1e-5, that is
      of squared length at most 1e-10, normalizes to zero, and Vector3's ==
      calls two vectors equal when their difference is shorter than 1e-5. */
  const NormalizeEpsilonSqr: real := 0.0000000001

  /** invLength is 1 / |v| (the square root is not modelled). */
  predicate IsInverseLength(v: Vec3, invLength: real)
  {
    invLength > 0.0 && invLength * invLength * SqrMagnitude(v) == 1.0
  }

  /** invLength is what Normalize divides v by, whenever it divides. */
  predicate NormalizesWith(v: Vec3, invLength: real)
  {
    SqrMagnitude(v) > NormalizeEpsilonSqr ==> IsInverseLength(v, invLength)
  }

  lemma SqrMagnitudeScale(k: real, v: Vec3)
    ensures SqrMagnitude(Scale(k, v)) == k * k * SqrMagnitude(v)
  {
    SquareProduct(k, v.x);
    SquareProduct(k, v.y);
    SquareProduct(k, v.z);
  }

  lemma SquareProduct(k: real, x: real)
    ensures (k * x) * (k * x) == k * k * (x * x)
  {
  }

  /** Vector3.Normalize and Vector3.normalized: v / |v| above the cut-off,
      else zero.  A
      normalized vector has length 1 and points along v. */
  function Normalize(v: Vec3, invLength: real): (u: Vec3)
    requires NormalizesWith(v, invLength)
    ensures SqrMagnitude(v) > NormalizeEpsilonSqr ==> u == Scale(invLength, v) && SqrMagnitude(u) == 1.0
    ensures SqrMagnitude(v) <= NormalizeEpsilonSqr ==> u == Zero
  {
    if SqrMagnitude(v) > NormalizeEpsilonSqr then
      SqrMagnitudeScale(invLength, v);
      Scale(invLength, v)
    else Zero
  }

  /** Vector3 == Vector3.zero: Unity's approximate equality, squared
      length below 1e-10. */
  predicate ApproxZero(v: Vec3)
  {
    SqrMagnitude(v) < NormalizeEpsilonSqr
  }
}
