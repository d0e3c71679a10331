/** A quaternion over the reals, with the value operations the animation code uses:
    construction with the identity as default, clone, copy, comparison within a tolerance,
    squared magnitude, and the sign handling and linear branch of spherical interpolation. */
module Quat {
  import opened Vec3

  datatype Quat = Quat(x: real, y: real, z: real, w: real)

  /** The constructor: omitted components give the identity rotation. */
  function New(x: real := 0.0, y: real := 0.0, z: real := 0.0, w: real := 1.0): (r: Quat)
    ensures r.x == x && r.y == y && r.z == z && r.w == w
  {
    Quat(x, y, z, w)
  }

  /** The default is the identity rotation, a unit quaternion. */
  lemma DefaultIsIdentity()
    ensures New() == Quat(0.0, 0.0, 0.0, 1.0)
    ensures MagnitudeSqr(New()) == 1.0
  {
  }

  function Clone(q: Quat): (r: Quat)
    ensures r.x == q.x && r.y == q.y && r.z == q.z && r.w == q.w
  {
    New(q.x, q.y, q.z, q.w)
  }

  /** `copy(out, q)`: the target takes all four components of q; q is only read. */
  function Copy(out: Quat, q: Quat): (r: Quat)
    ensures r.x == q.x && r.y == q.y && r.z == q.z && r.w == q.w
  {
    out.(x := q.x, y := q.y, z := q.z, w := q.w)
  }

  predicate IsEqual(lhs: Quat, rhs: Quat, epsilon: real) {
    && Abs(lhs.x - rhs.x) < epsilon
    && Abs(lhs.y - rhs.y) < epsilon
    && Abs(lhs.z - rhs.z) < epsilon
    && Abs(lhs.w - rhs.w) < epsilon
  }

  lemma CloneAndCopyEqual(out: Quat, q: Quat, epsilon: real)
    requires epsilon > 0.0
    ensures IsEqual(Clone(q), q, epsilon) && IsEqual(Copy(out, q), q, epsilon)
  {
  }

  /** Closeness is reflexive for a positive tolerance, symmetric, and fails as soon as one
      component differs by at least the tolerance. */
  lemma IsEqualProperties(a: Quat, b: Quat, epsilon: real)
    ensures epsilon > 0.0 ==> IsEqual(a, a, epsilon)
    ensures IsEqual(a, b, epsilon) ==> IsEqual(b, a, epsilon)
    ensures (|| Abs(a.x - b.x) >= epsilon || Abs(a.y - b.y) >= epsilon
             || Abs(a.z - b.z) >= epsilon || Abs(a.w - b.w) >= epsilon) ==> !IsEqual(a, b, epsilon)
  {
    assert Abs(a.x - b.x) == Abs(b.x - a.x);
    assert Abs(a.y - b.y) == Abs(b.y - a.y);
    assert Abs(a.z - b.z) == Abs(b.z - a.z);
    assert Abs(a.w - b.w) == Abs(b.w - a.w);
  }

  function Dot(a: Quat, b: Quat): real {
    a.x * b.x + a.y * b.y + a.z * b.z + a.w * b.w
  }

  /** The sum of the squared components: zero for the zero quaternion and positive for every
      other. */
  function MagnitudeSqr(q: Quat): (r: real)
    ensures r >= 0.0
    ensures q == Quat(0.0, 0.0, 0.0, 0.0) ==> r == 0.0
    ensures q != Quat(0.0, 0.0, 0.0, 0.0) ==> r > 0.0
  {
    var r := q.x * q.x + q.y * q.y + q.z * q.z + q.w * q.w;
    SquaresSum(q.x, q.y, q.z, q.w);
    assert q != Quat(0.0, 0.0, 0.0, 0.0) ==> r > 0.0 by {
      if q != Quat(0.0, 0.0, 0.0, 0.0) {
        calc { r; == q.x * q.x + q.y * q.y + q.z * q.z + q.w * q.w; > 0.0; }
      }
    }
    r
  }

  /** A sum of four squares is never negative, and positive as soon as one of the four numbers
      is not zero. */
  lemma SquaresSum(x: real, y: real, z: real, w: real)
    ensures x * x + y * y + z * z + w * w >= 0.0
    ensures x != 0.0 || y != 0.0 || z != 0.0 || w != 0.0 ==> x * x + y * y + z * z + w * w > 0.0
  {
    Square(x); Square(y); Square(z); Square(w);
  }

  lemma Square(a: real)
    ensures a * a >= 0.0
    ensures a != 0.0 ==> a * a > 0.0
  {
    if a < 0.0 {
      Positive(-a);
      assert a * a == (-a) * (-a);
    } else if a > 0.0 {
      Positive(a);
    }
  }

  lemma Positive(p: real)
    requires p > 0.0
    ensures p * p > 0.0
  {
  }

  function Negate(q: Quat): Quat {
    Quat(-q.x, -q.y, -q.z, -q.w)
  }

  /** The negated quaternion the sign adjustment switches to has the same squared magnitude
      and negates back to the original. */
  lemma NegateSameMagnitude(q: Quat)
    ensures MagnitudeSqr(Negate(q)) == MagnitudeSqr(q)
    ensures Negate(Negate(q)) == q
  {
    NegSquare(q.x); NegSquare(q.y); NegSquare(q.z); NegSquare(q.w);
  }

  /** Negating the target flips the cosine with any quaternion. */
  lemma NegateFlipsDot(from: Quat, q: Quat)
    ensures Dot(from, Negate(q)) == -Dot(from, q)
  {
    NegProduct(from.x, q.x); NegProduct(from.y, q.y); NegProduct(from.z, q.z); NegProduct(from.w, q.w);
  }

  lemma NegSquare(a: real)
    ensures (-a) * (-a) == a * a
  {
  }

  lemma NegProduct(a: real, b: real)
    ensures a * (-b) == -(a * b)
  {
  }

  /** The sign adjustment: when the cosine between the two rotations is negative, the target
      is replaced by its negation (the same rotation), which turns the cosine non-negative. */
  function SignAdjust(from: Quat, to: Quat): (r: (real, Quat))
    ensures r.0 >= 0.0 && r.0 == Dot(from, r.1)
    ensures Dot(from, to) < 0.0 ==> r.1 == Negate(to) && r.0 == -Dot(from, to)
    ensures Dot(from, to) >= 0.0 ==> r.1 == to && r.0 == Dot(from, to)
  {
    var cosOmega := Dot(from, to);
    if cosOmega < 0.0 then (-cosOmega, Negate(to)) else (cosOmega, to)
  }

  /** The threshold under which the two rotations count as nearly parallel. */
  const NEARLY_PARALLEL: real := 0.000001

  /** The weighted sum `scale0 * from + scale1 * b`, component by component. */
  function Combine(scale0: real, from: Quat, scale1: real, b: Quat): Quat {
    Quat(scale0 * from.x + scale1 * b.x, scale0 * from.y + scale1 * b.y,
         scale0 * from.z + scale1 * b.z, scale0 * from.w + scale1 * b.w)
  }

  /** Linear interpolation from `from` at t = 0 to `b` at t = 1. */
  function Lerp(from: Quat, b: Quat, t: real): (r: Quat)
    ensures t == 0.0 ==> r == from
    ensures t == 1.0 ==> r == b
  {
    Combine(1.0 - t, from, t, b)
  }

  /** Spherical interpolation. After the sign adjustment, nearly parallel rotations are
      interpolated linearly; otherwise the weights come from `arcScales`, which stands for the
      arc-cosine and sine computation and is given the adjusted cosine and t. */
  function Slerp(from: Quat, to: Quat, t: real, arcScales: (real, real) -> (real, real)): (r: Quat)
    ensures var (cosOmega, b) := SignAdjust(from, to);
      && (1.0 - cosOmega <= NEARLY_PARALLEL ==> r == Lerp(from, b, t))
      && (1.0 - cosOmega > NEARLY_PARALLEL ==>
            r == Combine(arcScales(cosOmega, t).0, from, arcScales(cosOmega, t).1, b))
  {
    var (cosOmega, b) := SignAdjust(from, to);
    var (scale0, scale1) := if 1.0 - cosOmega > NEARLY_PARALLEL then arcScales(cosOmega, t) else (1.0 - t, t);
    Combine(scale0, from, scale1, b)
  }

  /** Interpolating between nearly parallel rotations starts at `from` and ends at the
      sign-adjusted target. A target on the far side arrives negated. */
  lemma SlerpLinearEnds(from: Quat, to: Quat, arcScales: (real, real) -> (real, real))
    requires 1.0 - SignAdjust(from, to).0 <= NEARLY_PARALLEL
    ensures Slerp(from, to, 0.0, arcScales) == from
    ensures Slerp(from, to, 1.0, arcScales) == (if Dot(from, to) < 0.0 then Negate(to) else to)
  {
  }
}
