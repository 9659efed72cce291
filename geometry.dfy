/** Vectors, quaternions and the two interpolation primitives the mixer uses.
    Unity's single-precision floats are modelled as reals. */
module Geometry {

  /** A Vector3. */
  datatype Vec3 = Vec3(x: real, y: real, z: real)

  /** A Quaternion; the model carries its components and never interprets them. */
  datatype Quat = Quat(x: real, y: real, z: real, w: real)

  function Neg(v: Vec3): Vec3 {
    Vec3(-v.x, -v.y, -v.z)
  }

  function SqrMagnitude(v: Vec3): real {
    v.x * v.x + v.y * v.y + v.z * v.z
  }

  /** Mathf.Clamp: below the minimum gives the minimum, otherwise above the maximum gives
      the maximum, otherwise the value itself. */
  function Clamp(value: real, min: real, max: real): (r: real)
    ensures min <= max ==> min <= r <= max
    ensures min <= value <= max ==> r == value
    ensures value < min ==> r == min
    ensures min <= max && max < value ==> r == max
  {
    if value < min then min
    else if value > max then max
    else value
  }

  /** Mathf.Clamp01: the interpolation factor as Unity's Lerp and Slerp use it. */
  function Clamp01(t: real): (r: real)
    ensures 0.0 <= r <= 1.0
    ensures 0.0 <= t <= 1.0 ==> r == t
  {
    Clamp(t, 0.0, 1.0)
  }

  function LerpScalar(a: real, b: real, s: real): real {
    a + (b - a) * s
  }

  lemma MulNonneg(x: real, y: real)
    requires 0.0 <= x && 0.0 <= y
    ensures 0.0 <= x * y
  {}

  lemma LerpScalarBetween(a: real, b: real, s: real)
    requires 0.0 <= s <= 1.0
    ensures a <= b ==> a <= LerpScalar(a, b, s) <= b
    ensures b <= a ==> b <= LerpScalar(a, b, s) <= a
  {
    assert (b - a) - (b - a) * s == (b - a) * (1.0 - s);
    if a <= b {
      MulNonneg(b - a, s);
      MulNonneg(b - a, 1.0 - s);
    } else {
      MulNonneg(a - b, s);
      MulNonneg(a - b, 1.0 - s);
      assert (a - b) * s == -((b - a) * s);
      assert (a - b) * (1.0 - s) == -((b - a) * (1.0 - s));
    }
  }

  /** `r` lies, component by component, between `a` and `b`. */
  ghost predicate Between(a: Vec3, b: Vec3, r: Vec3) {
    && (a.x <= r.x <= b.x || b.x <= r.x <= a.x)
    && (a.y <= r.y <= b.y || b.y <= r.y <= a.y)
    && (a.z <= r.z <= b.z || b.z <= r.z <= a.z)
  }

  /** Vector3.Lerp: the factor is clamped to [0,1], then a + (b - a) * t per component. */
  function Lerp(a: Vec3, b: Vec3, t: real): (r: Vec3)
    ensures t <= 0.0 ==> r == a
    ensures t >= 1.0 ==> r == b
    ensures Between(a, b, r)
  {
    var s := Clamp01(t);
    LerpScalarBetween(a.x, b.x, s);
    LerpScalarBetween(a.y, b.y, s);
    LerpScalarBetween(a.z, b.z, s);
    Vec3(LerpScalar(a.x, b.x, s), LerpScalar(a.y, b.y, s), LerpScalar(a.z, b.z, s))
  }

  /** The engine's unclamped spherical interpolation. Its internals are not part of this
      model: it is a parameter, and all that is assumed of it is its endpoint law. */
  type SlerpFn = (Quat, Quat, real) -> Quat

  ghost predicate SlerpEndpoints(slerp: SlerpFn) {
    forall a: Quat, b: Quat :: slerp(a, b, 0.0) == a && slerp(a, b, 1.0) == b
  }

  /** Quaternion.Slerp: the factor is clamped to [0,1] before interpolating. */
  function Slerp(slerp: SlerpFn, a: Quat, b: Quat, t: real): (q: Quat)
    ensures SlerpEndpoints(slerp) && t <= 0.0 ==> q == a
    ensures SlerpEndpoints(slerp) && t >= 1.0 ==> q == b
  {
    slerp(a, b, Clamp01(t))
  }
}
