/** Unity's Mathf.Repeat and Mathf.DeltaAngle, defined exactly on the reals
    with .Floor, and the facts the rule engines need about them. */
module Angles {
  import opened Geometry

  /** x is a whole number. */
  predicate IsWhole(x: real) { x.Floor as real == x }

  /** a and b name the same direction: they differ by a whole number of turns. */
  predicate SameAngle(a: real, b: real) { IsWhole((a - b) / 360.0) }

  lemma FloorBounds(x: real)
    ensures x.Floor as real <= x < x.Floor as real + 1.0
  {
  }

  lemma MulStrict(a: real, b: real, c: real)
    requires a < b && c > 0.0
    ensures a * c < b * c
  {
  }

  lemma RepeatRaw(t: real, length: real, k: int)
    requires length > 0.0 && k == (t / length).Floor
    ensures 0.0 <= t - (k as real) * length < length
    ensures (t - (t - (k as real) * length)) / length == k as real
  {
    var u := t / length;
    FloorBounds(u);
    var f := u - k as real;
    assert 0.0 <= f < 1.0;
    assert t - (k as real) * length == f * length;
    MulStrict(f, 1.0, length);
  }

  /** Mathf.Repeat(t, length) = Clamp(t - Floor(t / length) * length, 0, length). */
  function Repeat(t: real, length: real): (r: real)
    requires length > 0.0
    ensures 0.0 <= r < length
    ensures IsWhole((t - r) / length)
  {
    var k := (t / length).Floor;
    RepeatRaw(t, length, k);
    Clamp(t - (k as real) * length, 0.0, length)
  }

  /** Mathf.DeltaAngle(current, target): the shortest signed turn from
      current to target, in (-180, 180]. */
  function DeltaAngle(current: real, target: real): (r: real)
    ensures -180.0 < r <= 180.0
    ensures SameAngle(target - current, r)
  {
    var num := Repeat(target - current, 360.0);
    if num > 180.0 then
      ShiftTurn(target - current, num);
      num - 360.0
    else
      num
  }

  lemma ShiftTurn(a: real, r: real)
    requires SameAngle(a, r)
    ensures SameAngle(a, r - 360.0)
  {
    WholeSum((a - r) / 360.0, 1.0);
    assert (a - (r - 360.0)) / 360.0 == (a - r) / 360.0 + 1.0;
  }

  /** CollisionManager's AngleRange.ToSigned180 (and ObjectLocker's helper of
      the same name): DeltaAngle(0, x). */
  function ToSigned180(x: real): (r: real)
    ensures -180.0 < r <= 180.0
    ensures SameAngle(x, r)
  {
    DeltaAngle(0.0, x)
  }

  /** Two signed angles that name the same direction are equal. */
  lemma {:induction false} SignedRepresentativeUnique(a: real, b: real)
    requires -180.0 < a <= 180.0 && -180.0 < b <= 180.0
    requires SameAngle(a, b)
    ensures a == b
  {
    var k := ((a - b) / 360.0).Floor;
    assert -1.0 < (a - b) / 360.0 < 1.0;
    assert k == 0;
  }

  /** A whole number read back through Floor is itself. */
  lemma FloorOfWhole(k: int, y: real)
    requires y == k as real
    ensures y.Floor == k
  {
  }

  lemma WholeSum(x: real, y: real)
    requires IsWhole(x) && IsWhole(y)
    ensures IsWhole(x + y)
  {
    var s := x.Floor + y.Floor;
    assert s as real == x + y;
    FloorOfWhole(s, x + y);
  }

  lemma WholeNeg(x: real)
    requires IsWhole(x)
    ensures IsWhole(-x)
  {
    var k := -(x.Floor);
    assert k as real == -x;
    FloorOfWhole(k, -x);
  }

  lemma SameAngleTrans(a: real, b: real, c: real)
    requires SameAngle(a, b) && SameAngle(b, c)
    ensures SameAngle(a, c)
  {
    WholeSum((a - b) / 360.0, (b - c) / 360.0);
    assert (a - b) / 360.0 + (b - c) / 360.0 == (a - c) / 360.0;
  }

  lemma SameAngleSym(a: real, b: real)
    requires SameAngle(a, b)
    ensures SameAngle(b, a)
  {
    WholeNeg((a - b) / 360.0);
    assert -((a - b) / 360.0) == (b - a) / 360.0;
  }

  /** Normalizing an already signed angle changes nothing. */
  lemma ToSigned180Fixed(x: real)
    requires -180.0 < x <= 180.0
    ensures ToSigned180(x) == x
  {
    SameAngleSym(x, ToSigned180(x));
    SignedRepresentativeUnique(ToSigned180(x), x);
  }

  /** ToSigned180 is idempotent. */
  lemma ToSigned180Idempotent(x: real)
    ensures ToSigned180(ToSigned180(x)) == ToSigned180(x)
  {
    ToSigned180Fixed(ToSigned180(x));
  }

  /** DeltaAngle is zero exactly when the two angles name the same direction. */
  lemma DeltaAngleZeroIff(a: real, b: real)
    ensures DeltaAngle(a, b) == 0.0 <==> SameAngle(a, b)
  {
    var d := DeltaAngle(a, b);
    if d == 0.0 {
      assert SameAngle(b - a, 0.0);
      assert (b - a - 0.0) / 360.0 == -((a - b) / 360.0);
      WholeNeg((b - a) / 360.0);
    } else if SameAngle(a, b) {
      WholeNeg((a - b) / 360.0);
      assert -((a - b) / 360.0) == (b - a - 0.0) / 360.0;
      assert SameAngle(b - a, 0.0);
      SameAngleSym(b - a, d);
      SameAngleTrans(d, b - a, 0.0);
      SignedRepresentativeUnique(d, 0.0);
    }
  }

  /** On signed angles DeltaAngle is zero exactly on equality. */
  lemma DeltaAngleZeroOnSigned(a: real, b: real)
    requires -180.0 < a <= 180.0 && -180.0 < b <= 180.0
    ensures DeltaAngle(a, b) == 0.0 <==> a == b
  {
    DeltaAngleZeroIff(a, b);
    if SameAngle(a, b) {
      SignedRepresentativeUnique(a, b);
    }
    if a == b {
      assert (a - b) / 360.0 == 0.0;
    }
  }

  /** DeltaAngle depends only on the directions of its arguments. */
  lemma DeltaAngleInvariant(a: real, b: real, a2: real, b2: real)
    requires SameAngle(a, a2) && SameAngle(b, b2)
    ensures DeltaAngle(a, b) == DeltaAngle(a2, b2)
  {
    var d := DeltaAngle(a, b);
    var d2 := DeltaAngle(a2, b2);
    // (b - a) and (b2 - a2) name the same direction.
    WholeNeg((a - a2) / 360.0);
    WholeSum((b - b2) / 360.0, -((a - a2) / 360.0));
    assert (b - b2) / 360.0 + -((a - a2) / 360.0) == ((b - a) - (b2 - a2)) / 360.0;
    assert SameAngle(b - a, b2 - a2);
    SameAngleSym(b - a, d);
    SameAngleTrans(d, b - a, b2 - a2);
    SameAngleTrans(d, b2 - a2, d2);
    SignedRepresentativeUnique(d, d2);
  }

  /** Making the first argument signed does not change DeltaAngle. */
  lemma DeltaAngleOfSigned(a: real, b: real)
    ensures DeltaAngle(ToSigned180(a), b) == DeltaAngle(a, b)
  {
    assert a - 0.0 == a;
    SameAngleSym(a, ToSigned180(a));
    assert (b - b) / 360.0 == 0.0;
    DeltaAngleInvariant(ToSigned180(a), b, a, b);
  }
}
