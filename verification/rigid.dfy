/** The base rigid shape (lib/src/module/rigid/engine.rigid.ts): per-body pose,
    self-registration in the owning shape collection, the coarse `boundTest`
    pre-check and the overridable hooks that do nothing in the base class. */
module Rigid {
  import opened Vectors
  import Wrappers

  /** Pose shared by every shape. `radius` is the base class's own field, which
      its constructor always zeroes. */
  datatype RigidShape = RigidShape(center: Vec, angle: real, radius: real)

  /** The ordered, append-only list of shapes of one simulation space. */
  datatype ShapeCollection<S> = ShapeCollection(collection: seq<S>)

  /** `collection.push(shape)`. */
  function Register<S>(c: ShapeCollection<S>, shape: S): (r: ShapeCollection<S>)
    ensures |r.collection| == |c.collection| + 1
    ensures r.collection[..|c.collection|] == c.collection
    ensures r.collection[|c.collection|] == shape
  {
    ShapeCollection(c.collection + [shape])
  }

  /** Registering several shapes one after the other, in order. */
  function RegisterAll<S>(c: ShapeCollection<S>, shapes: seq<S>): ShapeCollection<S>
    decreases |shapes|
  {
    if |shapes| == 0 then c else RegisterAll(Register(c, shapes[0]), shapes[1..])
  }

  /** Shapes are listed in the order they were constructed and no earlier
      entry is ever disturbed. */
  lemma {:induction false} RegisterAllAppends<S>(c: ShapeCollection<S>, shapes: seq<S>)
    ensures RegisterAll(c, shapes).collection == c.collection + shapes
    decreases |shapes|
  {
    if |shapes| > 0 {
      var c' := Register(c, shapes[0]);
      RegisterAllAppends(c', shapes[1..]);
      assert c'.collection == c.collection + [shapes[0]];
      assert [shapes[0]] + shapes[1..] == shapes;
      assert c.collection + [shapes[0]] + shapes[1..] == c.collection + shapes;
    }
  }

  /** The field initialisation of the base constructor: the centre is kept,
      and both `radius` and `angle` are set to zero whatever angle was
      passed in. */
  function InitShape(center: Vec, angle: real): (s: RigidShape)
    ensures s.center == center
    ensures s.angle == 0.0 && s.radius == 0.0
  {
    RigidShape(center, angle, 0.0).(angle := 0.0)
  }

  /** The base constructor: initialise the fields, then append the new shape
      to the collection it was given. The source pushes `this`, which is the
      object of the subclass being built; `finish` turns the initialised base
      into that object (the identity for a bare `RigidShape`). */
  function NewRigidShape<S>(center: Vec, angle: real, c: ShapeCollection<S>, finish: RigidShape -> S)
    : (r: (RigidShape, ShapeCollection<S>))
    ensures r.0.center == center && r.0.angle == 0.0 && r.0.radius == 0.0
    ensures r.1.collection == c.collection + [finish(r.0)]
  {
    var s := InitShape(center, angle);
    (s, Register(c, finish(s)))
  }

  /** The angle argument of the constructor has no effect at all. */
  lemma ConstructorIgnoresAngle<S>(center: Vec, a1: real, a2: real, c: ShapeCollection<S>, finish: RigidShape -> S)
    ensures NewRigidShape(center, a1, c, finish) == NewRigidShape(center, a2, c, finish)
  {}

  /** `boundTest`: the shapes are reported as possibly overlapping unless the
      distance between their centres exceeds the SUM OF THEIR ANGLES. This is
      kept exactly as written; it reads like a slip for the sum of the two
      bounding radii. `distance` is the vector type's `lengthCalculation`. */
  function BoundTest(self: RigidShape, other: RigidShape, ops: VecOps): (r: bool)
    ensures r <==> ops.lengthCalculation(Sub(other.center, self.center)) <= self.angle + other.angle
  {
    var vectorDifference := Sub(other.center, self.center);
    var angleSum := self.angle + other.angle;
    var distance := ops.lengthCalculation(vectorDifference);
    if distance > angleSum then false else true
  }

  /** With a true `lengthCalculation`, `boundTest` is a comparison of
      squared distances against the squared angle sum, and it always fails
      when the angle sum is negative. */
  lemma BoundTestSquared(self: RigidShape, other: RigidShape, ops: VecOps)
    requires Sound(ops)
    ensures BoundTest(self, other, ops) <==>
              var s := self.angle + other.angle;
              s >= 0.0 && LengthSq(Sub(other.center, self.center)) <= s * s
  {
    assert LengthIsNorm(ops);
    LengthAtMost(ops.lengthCalculation, Sub(other.center, self.center), self.angle + other.angle);
  }

  /** Since the constructor zeroes the angle, two freshly constructed shapes
      pass `boundTest` only when their centres coincide. */
  lemma BoundTestOfFreshShapes(c1: Vec, a1: real, c2: Vec, a2: real, ops: VecOps)
    requires Sound(ops)
    ensures BoundTest(InitShape(c1, a1), InitShape(c2, a2), ops) <==> c1 == c2
  {
    var d := Sub(c2, c1);
    LengthZero(ops, d);
    SubZero(c2, c1);
  }

  /** A true `lengthCalculation` is at most zero exactly at the zero vector. */
  lemma LengthZero(ops: VecOps, d: Vec)
    requires Sound(ops)
    ensures ops.lengthCalculation(d) <= 0.0 <==> d == Zero
  {
    assert IsNorm(ops.lengthCalculation) && VanishesOnlyAtZero(ops.lengthCalculation);
    assert ops.lengthCalculation(d) >= 0.0;
  }

  /* The hooks the base class leaves for subclasses; none changes the shape. */

  function Move(s: RigidShape, v: Vec): (r: RigidShape)
    ensures r == s
  {
    s
  }

  /** `rotate(angle, center?)`: the optional centre argument is a number in
      the base signature. */
  function Rotate(s: RigidShape, angle: real, center: Wrappers.Option<real>): (r: RigidShape)
    ensures r == s
  {
    s
  }

  function Render<C>(s: RigidShape, context: C): (r: RigidShape)
    ensures r == s
  {
    s
  }

  function Update<C>(s: RigidShape, context: C): (r: RigidShape)
    ensures r == s
  {
    s
  }
}
