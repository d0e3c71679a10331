/** A three-component vector over the reals, with the value operations the converter uses:
    construction with defaults, clone, copy, and comparison within a tolerance. */
module Vec3 {

  datatype Vec3 = Vec3(x: real, y: real, z: real)

  function Abs(a: real): (r: real)
    ensures r >= 0.0 && (r == a || r == -a)
  {
    if a < 0.0 then -a else a
  }

  /** The constructor: every omitted component is zero. */
  function New(x: real := 0.0, y: real := 0.0, z: real := 0.0): (r: Vec3)
    ensures r.x == x && r.y == y && r.z == z
  {
    Vec3(x, y, z)
  }

  lemma DefaultIsOrigin()
    ensures New() == Vec3(0.0, 0.0, 0.0)
  {
  }

  /** A fresh vector with the same components. */
  function Clone(v: Vec3): (r: Vec3)
    ensures r.x == v.x && r.y == v.y && r.z == v.z
  {
    New(v.x, v.y, v.z)
  }

  /** `copy(out, v)`: the target takes the components of v, whatever it held before; v is
      only read. */
  function Copy(out: Vec3, v: Vec3): (r: Vec3)
    ensures r.x == v.x && r.y == v.y && r.z == v.z
  {
    out.(x := v.x, y := v.y, z := v.z)
  }

  /** Componentwise closeness: every component differs by less than epsilon. */
  predicate IsEqual(lhs: Vec3, rhs: Vec3, epsilon: real) {
    && Abs(lhs.x - rhs.x) < epsilon
    && Abs(lhs.y - rhs.y) < epsilon
    && Abs(lhs.z - rhs.z) < epsilon
  }

  /** A clone and a copy compare equal to their source under any positive tolerance. */
  lemma CloneAndCopyEqual(out: Vec3, v: Vec3, epsilon: real)
    requires epsilon > 0.0
    ensures IsEqual(Clone(v), v, epsilon) && IsEqual(Copy(out, v), v, epsilon)
  {
  }

  /** Closeness is reflexive for a positive tolerance and symmetric for any. */
  lemma IsEqualReflexiveSymmetric(a: Vec3, b: Vec3, epsilon: real)
    ensures epsilon > 0.0 ==> IsEqual(a, a, epsilon)
    ensures IsEqual(a, b, epsilon) ==> IsEqual(b, a, epsilon)
  {
    assert Abs(a.x - b.x) == Abs(b.x - a.x);
    assert Abs(a.y - b.y) == Abs(b.y - a.y);
    assert Abs(a.z - b.z) == Abs(b.z - a.z);
  }

  /** A component that differs by at least epsilon makes the vectors unequal. */
  lemma FarComponentUnequal(a: Vec3, b: Vec3, epsilon: real)
    requires Abs(a.x - b.x) >= epsilon || Abs(a.y - b.y) >= epsilon || Abs(a.z - b.z) >= epsilon
    ensures !IsEqual(a, b, epsilon)
  {
  }

  /** Closeness is not transitive, but tolerances add up along a chain. */
  lemma IsEqualChain(a: Vec3, b: Vec3, c: Vec3, e1: real, e2: real)
    requires IsEqual(a, b, e1) && IsEqual(b, c, e2)
    ensures IsEqual(a, c, e1 + e2)
  {
  }

  /** Under every positive tolerance closeness fails to be transitive: two steps of three
      quarters of the tolerance each stay close, but their ends do not. */
  lemma IsEqualNotTransitive(epsilon: real)
    requires epsilon > 0.0
    ensures IsEqual(Vec3(0.0, 0.0, 0.0), Vec3(0.75 * epsilon, 0.0, 0.0), epsilon)
    ensures IsEqual(Vec3(0.75 * epsilon, 0.0, 0.0), Vec3(1.5 * epsilon, 0.0, 0.0), epsilon)
    ensures !IsEqual(Vec3(0.0, 0.0, 0.0), Vec3(1.5 * epsilon, 0.0, 0.0), epsilon)
  {
  }
}
