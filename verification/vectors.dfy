/** Two-dimensional vectors over exact reals.

    The engine's vector type is not part of this model. Its linear operations
    (add, subtract, scale, dot) are written out here; the ones that need a
    square root or trigonometry (normalize, the two length methods, rotate
    about a point) and `Math.sqrt` are given to the model as function values
    in a `VecOps` record, and the predicates below say what a faithful
    implementation of them satisfies. */
module Vectors {

  datatype Vec = Vec(x: real, y: real)

  const Zero: Vec := Vec(0.0, 0.0)

  function Add(a: Vec, b: Vec): Vec {
    Vec(a.x + b.x, a.y + b.y)
  }

  function Sub(a: Vec, b: Vec): Vec {
    Vec(a.x - b.x, a.y - b.y)
  }

  function Scale(a: Vec, k: real): Vec {
    Vec(a.x * k, a.y * k)
  }

  function Dot(a: Vec, b: Vec): real {
    a.x * b.x + a.y * b.y
  }

  /** z-component of the 3-D cross product; zero iff `a` and `b` are parallel. */
  function Cross(a: Vec, b: Vec): real {
    a.x * b.y - a.y * b.x
  }

  function LengthSq(a: Vec): real {
    Dot(a, a)
  }

  /** Adding and then subtracting the same vector is the identity. */
  lemma AddSubCancel(p: Vec, v: Vec)
    ensures Sub(Add(p, v), v) == p
  {}

  /** Two vectors are equal exactly when their difference is zero. */
  lemma SubZero(p: Vec, q: Vec)
    ensures Sub(p, q) == Zero <==> p == q
  {}

  /** Subtracting and then adding the same vector is the identity. */
  lemma SubAddCancel(p: Vec, v: Vec)
    ensures Add(Sub(p, v), v) == p
  {}

  /** Moving by `-k` times `n` and then by `k` times `n` is the identity. */
  lemma ScaleNegatedCancel(c: Vec, n: Vec, k: real)
    ensures Add(Add(c, Scale(n, -k)), Scale(n, k)) == c
  {
    assert n.x * -k == -(n.x * k);
    assert n.y * -k == -(n.y * k);
  }

  /** Scaling by -1 twice is the identity. */
  lemma NegateTwice(n: Vec)
    ensures Scale(Scale(n, -1.0), -1.0) == n
  {}

  /** Moving along the reversed vector is moving back along the vector. */
  lemma AddReversed(p: Vec, n: Vec, d: real)
    ensures Add(p, Scale(Scale(n, -1.0), d)) == Sub(p, Scale(n, d))
  {
    assert (n.x * -1.0) * d == -(n.x * d);
    assert (n.y * -1.0) * d == -(n.y * d);
  }

  /** The operations that are not linear. The vector type has two length
      methods: `length`, which the rectangle calls, and `lengthCalculation`,
      which `boundTest` calls; they are kept apart. `sqrt` is `Math.sqrt`. */
  datatype VecOps = VecOps(
    normalize: Vec -> Vec,
    length: Vec -> real,
    lengthCalculation: Vec -> real,
    sqrt: real -> real,
    rotate: (Vec, Vec, real) -> Vec  // rotate(point, pivot, angle)
  )

  /** `n` is the unit vector pointing the same way as `v`. */
  predicate IsUnitAlong(n: Vec, v: Vec) {
    LengthSq(n) == 1.0 && Cross(n, v) == 0.0 && Dot(n, v) > 0.0
  }

  /** `f` is the Euclidean norm: never negative, and its square is the
      squared length. */
  ghost predicate IsNorm(f: Vec -> real) {
    forall v :: f(v) >= 0.0 && f(v) * f(v) == LengthSq(v)
  }

  /** `f` is zero exactly at the zero vector. */
  ghost predicate VanishesOnlyAtZero(f: Vec -> real) {
    forall v :: f(v) == 0.0 <==> v == Zero
  }

  /** Both length methods are the Euclidean norm. */
  ghost predicate LengthIsNorm(ops: VecOps) {
    IsNorm(ops.length) && IsNorm(ops.lengthCalculation)
  }

  /** Both length methods are zero exactly at the zero vector. */
  ghost predicate LengthVanishesOnlyAtZero(ops: VecOps) {
    VanishesOnlyAtZero(ops.length) && VanishesOnlyAtZero(ops.lengthCalculation)
  }

  /** `sqrt` gives the non-negative square root of every non-negative
      number. */
  ghost predicate SqrtIsRoot(ops: VecOps) {
    forall x :: x >= 0.0 ==> ops.sqrt(x) >= 0.0 && ops.sqrt(x) * ops.sqrt(x) == x
  }

  /** `normalize` scales every non-zero vector to unit length without
      changing its direction. */
  ghost predicate NormalizeIsUnit(ops: VecOps) {
    forall v :: v != Zero ==> IsUnitAlong(ops.normalize(v), v)
  }

  /** Faithful lengths, square root and `normalize`. */
  ghost predicate Sound(ops: VecOps) {
    LengthIsNorm(ops) && LengthVanishesOnlyAtZero(ops) && SqrtIsRoot(ops) && NormalizeIsUnit(ops)
  }

  /** Rotating by an angle and then by its negation about the same pivot is
      the identity. */
  ghost predicate RotationInvertible(ops: VecOps) {
    forall p, c, a :: ops.rotate(ops.rotate(p, c, a), c, -a) == p
  }

  /* Arithmetic facts about squares. The solver's non-linear reasoning is
     easily lost, so each fact is reduced to the sign of one product. */

  lemma ProductPositive(p: real, q: real)
    requires p > 0.0 && q > 0.0
    ensures p * q > 0.0
  {}

  lemma ProductNonNegative(p: real, q: real)
    requires p >= 0.0 && q >= 0.0
    ensures p * q >= 0.0
  {}

  lemma SquareMonotone(a: real, b: real)
    requires a >= 0.0 && b >= 0.0
    ensures a <= b <==> a * a <= b * b
  {
    if a <= b {
      ProductNonNegative(b - a, b + a);
      assert (b - a) * (b + a) == b * b - a * a;
    } else {
      ProductPositive(a - b, a + b);
      assert (a - b) * (a + b) == a * a - b * b;
    }
  }

  /** The only real numbers whose square is one are 1 and -1. */
  lemma UnitSquare(t: real)
    requires t * t == 1.0
    ensures t == 1.0 || t == -1.0
  {
    if t >= 0.0 {
      UnitSquareNonNegative(t);
    } else {
      assert (-t) * (-t) == t * t;
      UnitSquareNonNegative(-t);
    }
  }

  lemma UnitSquareNonNegative(t: real)
    requires t >= 0.0 && t * t == 1.0
    ensures t == 1.0
  {
    SquareMonotone(t, 1.0);
    SquareMonotone(1.0, t);
  }

  /** For a norm `f`, comparing a length against a bound `r` is the same as
      comparing squares, provided the bound is not negative. */
  lemma LengthAtMost(f: Vec -> real, v: Vec, r: real)
    requires IsNorm(f)
    ensures f(v) <= r <==> r >= 0.0 && LengthSq(v) <= r * r
  {
    var l := f(v);
    assert l >= 0.0 && l * l == LengthSq(v);
    if r >= 0.0 {
      SquareMonotone(l, r);
    }
  }

  /** The sign of a product follows from the signs of its factors. */
  lemma ProductSign(p: real, q: real)
    ensures p > 0.0 && q > 0.0 ==> p * q > 0.0
    ensures p < 0.0 && q < 0.0 ==> p * q > 0.0
    ensures p > 0.0 && q < 0.0 ==> p * q < 0.0
    ensures p < 0.0 && q > 0.0 ==> p * q < 0.0
    ensures p >= 0.0 && q >= 0.0 ==> p * q >= 0.0
    ensures p <= 0.0 && q <= 0.0 ==> p * q >= 0.0
  {
    assert (-p) * (-q) == p * q;
    assert p * (-q) == -(p * q);
    assert (-p) * q == -(p * q);
    if p < 0.0 && q < 0.0 {
      ProductPositive(-p, -q);
    } else if p > 0.0 && q < 0.0 {
      ProductPositive(p, -q);
    } else if p < 0.0 && q > 0.0 {
      ProductPositive(-p, q);
    } else if p <= 0.0 && q <= 0.0 {
      ProductNonNegative(-p, -q);
    }
  }

  /** A unit vector (a, b) with a * k == 0 and b * k > 0 for some k != 0
      is (0, 1) or (0, -1) according to the sign of k. */
  lemma UnitAlongAxis(a: real, b: real, k: real)
    requires k != 0.0 && a * a + b * b == 1.0 && a * k == 0.0 && b * k > 0.0
    ensures a == 0.0 && b == if k > 0.0 then 1.0 else -1.0
  {
    ProductSign(a, k);
    ProductSign(b, k);
    assert a == 0.0;
    assert b * b == 1.0;
    UnitSquare(b);
  }

  /** The unit vector along a non-zero vertical vector (0, k) is (0, 1) or
      (0, -1) according to the sign of k. */
  lemma UnitAlongVertical(n: Vec, k: real)
    requires k != 0.0 && IsUnitAlong(n, Vec(0.0, k))
    ensures n == Vec(0.0, if k > 0.0 then 1.0 else -1.0)
  {
    UnitAlongAxis(n.x, n.y, k);
  }

  /** The unit vector along a non-zero horizontal vector (k, 0) is (1, 0) or
      (-1, 0) according to the sign of k. */
  lemma UnitAlongHorizontal(n: Vec, k: real)
    requires k != 0.0 && IsUnitAlong(n, Vec(k, 0.0))
    ensures n == Vec(if k > 0.0 then 1.0 else -1.0, 0.0)
  {
    UnitAlongAxis(n.y, n.x, k);
  }
}
