/** The look-at component's setup: the axis enumeration turned into a vector and the
    authored angle limits put in order before they reach the look-at job. */
module LookAtSample {
  import opened Geometry

  /** The axis enumeration. As a C# enum it is an integer, so values outside the six
      named ones can occur. */
  newtype Axis = int

  const Forward: Axis := 0
  const Back: Axis := 1
  const Up: Axis := 2
  const Down: Axis := 3
  const Left: Axis := 4
  const Right: Axis := 5

  predicate IsNamedAxis(axis: Axis) {
    Forward <= axis <= Right
  }

  /** Exactly one component is nonzero, and it is 1 or -1. */
  predicate IsUnitAxis(v: Vec3) {
    || ((v.x == 1.0 || v.x == -1.0) && v.y == 0.0 && v.z == 0.0)
    || (v.x == 0.0 && (v.y == 1.0 || v.y == -1.0) && v.z == 0.0)
    || (v.x == 0.0 && v.y == 0.0 && (v.z == 1.0 || v.z == -1.0))
  }

  function GetAxisVector(axis: Axis): (v: Vec3)
    ensures IsUnitAxis(v)
    ensures !IsNamedAxis(axis) ==> v == Vec3(0.0, 0.0, 1.0)
  {
    if axis == Forward then Vec3(0.0, 0.0, 1.0)
    else if axis == Back then Vec3(0.0, 0.0, -1.0)
    else if axis == Up then Vec3(0.0, 1.0, 0.0)
    else if axis == Down then Vec3(0.0, -1.0, 0.0)
    else if axis == Left then Vec3(-1.0, 0.0, 0.0)
    else if axis == Right then Vec3(1.0, 0.0, 0.0)
    else Vec3(0.0, 0.0, 1.0)
  }

  /** Every axis vector has length 1. */
  lemma AxisVectorHasUnitLength(axis: Axis)
    ensures SqrMagnitude(GetAxisVector(axis)) == 1.0
  {
    var v := GetAxisVector(axis);
    assert IsUnitAxis(v);
  }

  /** The table of Unity's axis constants. */
  lemma AxisTable()
    ensures GetAxisVector(Forward) == Vec3(0.0, 0.0, 1.0)
    ensures GetAxisVector(Back) == Vec3(0.0, 0.0, -1.0)
    ensures GetAxisVector(Up) == Vec3(0.0, 1.0, 0.0)
    ensures GetAxisVector(Down) == Vec3(0.0, -1.0, 0.0)
    ensures GetAxisVector(Left) == Vec3(-1.0, 0.0, 0.0)
    ensures GetAxisVector(Right) == Vec3(1.0, 0.0, 0.0)
  {}

  /** Opposite enumeration values map to opposite vectors. */
  lemma OppositeAxes()
    ensures GetAxisVector(Back) == Neg(GetAxisVector(Forward))
    ensures GetAxisVector(Down) == Neg(GetAxisVector(Up))
    ensures GetAxisVector(Left) == Neg(GetAxisVector(Right))
  {
    AxisTable();
    assert Neg(Vec3(0.0, 0.0, 1.0)) == Vec3(0.0, 0.0, -1.0);
    assert Neg(Vec3(0.0, 1.0, 0.0)) == Vec3(0.0, -1.0, 0.0);
    assert Neg(Vec3(1.0, 0.0, 0.0)) == Vec3(-1.0, 0.0, 0.0);
  }

  /** The six named values map to six different vectors. */
  lemma GetAxisVectorInjective(a: Axis, b: Axis)
    requires IsNamedAxis(a) && IsNamedAxis(b)
    requires GetAxisVector(a) == GetAxisVector(b)
    ensures a == b
  {}

  /** Mathf.Min and Mathf.Max. */
  function Min(a: real, b: real): real {
    if a < b then a else b
  }

  function Max(a: real, b: real): real {
    if a > b then a else b
  }

  datatype AngleLimits = AngleLimits(minAngle: real, maxAngle: real)

  /** The limits as handed to the job: the smaller authored angle as the minimum and the
      larger as the maximum. */
  function NormalizeAngles(minAngle: real, maxAngle: real): (r: AngleLimits)
    ensures r.minAngle <= r.maxAngle
    ensures minAngle <= maxAngle ==> r == AngleLimits(minAngle, maxAngle)
    ensures maxAngle < minAngle ==> r == AngleLimits(maxAngle, minAngle)
  {
    AngleLimits(Min(minAngle, maxAngle), Max(minAngle, maxAngle))
  }

  /** Whatever the authored limits, the clamped angle lies within the normalised limits. */
  lemma ClampedAngleWithinLimits(angle: real, minAngle: real, maxAngle: real)
    ensures var limits := NormalizeAngles(minAngle, maxAngle);
            limits.minAngle <= Clamp(angle, limits.minAngle, limits.maxAngle) <= limits.maxAngle
  {}

  /** Without normalisation the clamp can leave the range: with limits authored the wrong
      way round, every value below the minimum comes back as that minimum, which lies
      above the maximum. */
  lemma UnorderedLimitsEscape(value: real, minAngle: real, maxAngle: real)
    requires maxAngle < minAngle && value < minAngle
    ensures Clamp(value, minAngle, maxAngle) == minAngle
    ensures Clamp(value, minAngle, maxAngle) > maxAngle
  {}

  /** The look-at job's configuration built at setup. */
  datatype LookAtSettings = LookAtSettings(axis: Vec3, minAngle: real, maxAngle: real)

  function ConfigureLookAt(axis: Axis, minAngle: real, maxAngle: real): (s: LookAtSettings)
    ensures s.axis == GetAxisVector(axis)
    ensures IsUnitAxis(s.axis)
    ensures s.minAngle <= s.maxAngle
    ensures {s.minAngle, s.maxAngle} == {minAngle, maxAngle}
  {
    var limits := NormalizeAngles(minAngle, maxAngle);
    LookAtSettings(GetAxisVector(axis), limits.minAngle, limits.maxAngle)
  }
}
