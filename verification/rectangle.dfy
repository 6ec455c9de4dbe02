/** The rectangle shape (lib/src/module/rigid/engine.shape.rectangle.ts):
    construction of its four vertices and outward face normals, keeping them
    in step under `rotate` and `move`, and its inertia. The collision
    routines are in the modules RectRect, RectCircle and Dispatch. */
module Rectangle {
  import opened Wrappers
  import opened Vectors
  import opened Rigid

  /** A rectangle. Its pose is the base shape's centre and angle (the source
      reads them as `mCenter` and `mAngle`, which it never assigns; this model
      uses the base fields for both). `vertex` is ordered top-left, top-right,
      bottom-right, bottom-left at construction; `faceNormal[i]` is the outward
      normal of face i: top, right, bottom, left. `inertia` is stored as its
      reciprocal, as the source does. */
  datatype Rect = Rect(
    base: RigidShape,
    width: real,
    height: real,
    boundRadius: real,
    vertex: seq<Vec>,
    faceNormal: seq<Vec>,
    invMass: real,
    inertia: Option<real>
  )

  /** The circle shape, which is not part of this model beyond the two
      fields the rectangle reads. */
  datatype Circle = Circle(center: Vec, radius: real)

  /** The concrete kinds of shape a rectangle can be tested against
      (`mType` of the other shape). */
  datatype Body = RectBody(rect: Rect) | CircleBody(circle: Circle)

  predicate Valid(r: Rect) {
    |r.vertex| == 4 && |r.faceNormal| == 4
  }

  /** The face normals the source computes from the vertices, both in the
      constructor and in `rotate`. */
  function FaceNormals(vs: seq<Vec>, ops: VecOps): (ns: seq<Vec>)
    requires |vs| == 4
    ensures |ns| == 4
    ensures forall i :: 0 <= i < 4 ==> ns[i] == ops.normalize(Sub(vs[(i + 1) % 4], vs[(i + 2) % 4]))
  {
    [ ops.normalize(Sub(vs[1], vs[2])),
      ops.normalize(Sub(vs[2], vs[3])),
      ops.normalize(Sub(vs[3], vs[0])),
      ops.normalize(Sub(vs[0], vs[1])) ]
  }

  /** The face normals agree with the vertices. */
  predicate Consistent(r: Rect, ops: VecOps) {
    Valid(r) && r.faceNormal == FaceNormals(r.vertex, ops)
  }

  /** `updateInertia`. `None` stands for the non-finite number JavaScript
      produces when it divides by a zero `mass * (w^2 + h^2) / 12`. */
  function UpdateInertia(invMass: real, width: real, height: real): (r: Option<real>)
    ensures invMass == 0.0 ==> r == Some(0.0)
    ensures invMass != 0.0 ==> (r.None? <==> width * width + height * height == 0.0)
    ensures invMass != 0.0 && r.Some? ==>
              r.value * ((1.0 / invMass) * (width * width + height * height) / 12.0) == 1.0
  {
    if invMass == 0.0 then
      Some(0.0)
    else
      var inertia := (1.0 / invMass) * (width * width + height * height) / 12.0;
      if inertia == 0.0 then None else Some(1.0 / inertia)
  }

  /** The stored reciprocal inertia, in closed form: 12 * invMass / (w^2 + h^2). */
  lemma InertiaClosedForm(invMass: real, width: real, height: real)
    requires invMass != 0.0 && width * width + height * height != 0.0
    ensures UpdateInertia(invMass, width, height) == Some(12.0 * invMass / (width * width + height * height))
  {
    var s := width * width + height * height;
    var r := UpdateInertia(invMass, width, height);
    var inertia := (1.0 / invMass) * s / 12.0;
    var y := 12.0 * invMass / s;
    assert r.Some? && r.value * inertia == 1.0;
    ScaledReciprocal(invMass, 1.0 / invMass, s);
    assert inertia * y == 1.0;
    UniqueInverse(r.value, y, inertia);
  }

  /** (m * s / 12) * (12 * k / s) == 1 when m is the reciprocal of k. */
  lemma ScaledReciprocal(k: real, m: real, s: real)
    requires k != 0.0 && s != 0.0 && m == 1.0 / k
    ensures (m * s / 12.0) * (12.0 * k / s) == 1.0
  {
    assert m * k == 1.0;
    var i := m * s / 12.0;
    var y := 12.0 * k / s;
    assert i * 12.0 == m * s;
    assert y * s == 12.0 * k;
    assert (i * y) * (12.0 * s) == (i * 12.0) * (y * s);
    assert (i * y) * (12.0 * s) == 12.0 * s * (m * k);
  }

  /** A number has at most one multiplicative inverse. */
  lemma UniqueInverse(x: real, y: real, i: real)
    requires x * i == 1.0 && i * y == 1.0
    ensures x == y
  {
    assert x * (i * y) == (x * i) * y;
  }

  /** The four corners of an axis-aligned rectangle: top-left, top-right,
      bottom-right, bottom-left (y grows downwards). */
  function Corners(center: Vec, width: real, height: real): (vs: seq<Vec>)
    ensures |vs| == 4
  {
    [ Vec(center.x - width / 2.0, center.y - height / 2.0),
      Vec(center.x + width / 2.0, center.y - height / 2.0),
      Vec(center.x + width / 2.0, center.y + height / 2.0),
      Vec(center.x - width / 2.0, center.y + height / 2.0) ]
  }

  /** The constructor. The base constructor initialises the base part and
      appends the finished rectangle to the collection; `width` is passed as
      the base's angle, as the `super` call does, and is discarded there. */
  function NewRect(center: Vec, width: real, height: real, invMass: real,
                   c: ShapeCollection<Body>, ops: VecOps): (r: (Rect, ShapeCollection<Body>))
    ensures Consistent(r.0, ops)
    ensures r.0.vertex == Corners(center, width, height)
    ensures r.0.vertex[0] == Vec(center.x - width / 2.0, center.y - height / 2.0)
    ensures r.0.vertex[1] == Vec(center.x + width / 2.0, center.y - height / 2.0)
    ensures r.0.vertex[2] == Vec(center.x + width / 2.0, center.y + height / 2.0)
    ensures r.0.vertex[3] == Vec(center.x - width / 2.0, center.y + height / 2.0)
    ensures r.0.base == RigidShape(center, 0.0, 0.0)
    ensures r.0.width == width && r.0.height == height && r.0.invMass == invMass
    ensures r.0.boundRadius == ops.sqrt(width * width + height * height) / 2.0
    ensures r.0.inertia == UpdateInertia(invMass, width, height)
    ensures r.1.collection == c.collection + [RectBody(r.0)]
  {
    var built := NewRigidShape(center, width, c, base => RectBody(RectOnBase(base, width, height, invMass, ops)));
    (RectOnBase(built.0, width, height, invMass, ops), built.1)
  }

  /** The body of the rectangle constructor after `super`: the fields it
      sets on the initialised base. */
  function RectOnBase(base: RigidShape, width: real, height: real, invMass: real, ops: VecOps): Rect {
    var vs := Corners(base.center, width, height);
    Rect(base, width, height, ops.sqrt(width * width + height * height) / 2.0,
         vs, FaceNormals(vs, ops), invMass, UpdateInertia(invMass, width, height))
  }

  /** The normals of a rectangle with positive sides, under a true
      `normalize`, are the outward axis directions: up, right, down, left. */
  lemma NewRectNormals(center: Vec, width: real, height: real, invMass: real,
                       c: ShapeCollection<Body>, ops: VecOps)
    requires Sound(ops) && width > 0.0 && height > 0.0
    ensures NewRect(center, width, height, invMass, c, ops).0.faceNormal
            == [Vec(0.0, -1.0), Vec(1.0, 0.0), Vec(0.0, 1.0), Vec(-1.0, 0.0)]
  {
    CornerNormals(center, width, height, ops);
  }

  lemma CornerNormals(center: Vec, width: real, height: real, ops: VecOps)
    requires Sound(ops) && width > 0.0 && height > 0.0
    ensures FaceNormals(Corners(center, width, height), ops)
            == [Vec(0.0, -1.0), Vec(1.0, 0.0), Vec(0.0, 1.0), Vec(-1.0, 0.0)]
  {
    VerticalNormals(ops, height);
    HorizontalNormals(ops, width);
    CornerEdges(center, width, height, ops);
  }

  /** The edge vectors the normals are computed from, for an axis-aligned
      rectangle. */
  lemma CornerEdges(center: Vec, width: real, height: real, ops: VecOps)
    ensures FaceNormals(Corners(center, width, height), ops)
            == [ ops.normalize(Vec(0.0, -height)), ops.normalize(Vec(width, 0.0)),
                 ops.normalize(Vec(0.0, height)), ops.normalize(Vec(-width, 0.0)) ]
  {
    var vs := Corners(center, width, height);
    assert Sub(vs[1], vs[2]) == Vec(0.0, -height);
    assert Sub(vs[2], vs[3]) == Vec(width, 0.0);
    assert Sub(vs[3], vs[0]) == Vec(0.0, height);
    assert Sub(vs[0], vs[1]) == Vec(-width, 0.0);
  }

  /** A true `normalize` maps the vertical edges to the unit up and down
      directions. */
  lemma VerticalNormals(ops: VecOps, height: real)
    requires Sound(ops) && height > 0.0
    ensures ops.normalize(Vec(0.0, -height)) == Vec(0.0, -1.0)
    ensures ops.normalize(Vec(0.0, height)) == Vec(0.0, 1.0)
  {
    NormalizePositiveY(ops, height);
    NormalizeNegativeY(ops, height);
  }

  /** A true `normalize` maps the horizontal edges to the unit right and left
      directions. */
  lemma HorizontalNormals(ops: VecOps, width: real)
    requires Sound(ops) && width > 0.0
    ensures ops.normalize(Vec(width, 0.0)) == Vec(1.0, 0.0)
    ensures ops.normalize(Vec(-width, 0.0)) == Vec(-1.0, 0.0)
  {
    NormalizePositiveX(ops, width);
    NormalizeNegativeX(ops, width);
  }

  lemma NormalizePositiveY(ops: VecOps, k: real)
    requires Sound(ops) && k > 0.0
    ensures ops.normalize(Vec(0.0, k)) == Vec(0.0, 1.0)
  {
    assert Vec(0.0, k) != Zero;
    assert IsUnitAlong(ops.normalize(Vec(0.0, k)), Vec(0.0, k));
    UnitAlongVertical(ops.normalize(Vec(0.0, k)), k);
  }

  lemma NormalizeNegativeY(ops: VecOps, k: real)
    requires Sound(ops) && k > 0.0
    ensures ops.normalize(Vec(0.0, -k)) == Vec(0.0, -1.0)
  {
    var m := -k;
    assert Vec(0.0, m) != Zero;
    assert IsUnitAlong(ops.normalize(Vec(0.0, m)), Vec(0.0, m));
    UnitAlongVertical(ops.normalize(Vec(0.0, m)), m);
  }

  lemma NormalizePositiveX(ops: VecOps, k: real)
    requires Sound(ops) && k > 0.0
    ensures ops.normalize(Vec(k, 0.0)) == Vec(1.0, 0.0)
  {
    assert Vec(k, 0.0) != Zero;
    assert IsUnitAlong(ops.normalize(Vec(k, 0.0)), Vec(k, 0.0));
    UnitAlongHorizontal(ops.normalize(Vec(k, 0.0)), k);
  }

  lemma NormalizeNegativeX(ops: VecOps, k: real)
    requires Sound(ops) && k > 0.0
    ensures ops.normalize(Vec(-k, 0.0)) == Vec(-1.0, 0.0)
  {
    var m := -k;
    assert Vec(m, 0.0) != Zero;
    assert IsUnitAlong(ops.normalize(Vec(m, 0.0)), Vec(m, 0.0));
    UnitAlongHorizontal(ops.normalize(Vec(m, 0.0)), m);
  }

  /** With a true square root, the bounding radius the constructor stores,
      `Math.sqrt(width * width + height * height) / 2`, is half the
      diagonal. */
  lemma BoundRadiusIsHalfDiagonal(ops: VecOps, width: real, height: real)
    requires Sound(ops)
    ensures var br := ops.sqrt(width * width + height * height) / 2.0;
            br >= 0.0 && (2.0 * br) * (2.0 * br) == width * width + height * height
  {
    var d := width * width + height * height;
    ProductSign(width, width);
    ProductSign(height, height);
    assert d >= 0.0;
    assert SqrtIsRoot(ops);
    var l := ops.sqrt(d);
    assert l >= 0.0 && l * l == d;
    assert 2.0 * (l / 2.0) == l;
  }

  /** Every vertex translated by `v`. */
  function Translate(vs: seq<Vec>, v: Vec): (r: seq<Vec>)
    ensures |r| == |vs|
    ensures forall i :: 0 <= i < |vs| ==> r[i] == Add(vs[i], v)
  {
    if |vs| == 0 then [] else [Add(vs[0], v)] + Translate(vs[1..], v)
  }

  /** `move(v)`: the vertices and the centre are translated; the face normals
      are left as they are. */
  function Move(r: Rect, v: Vec): (r': Rect)
    requires Valid(r)
    ensures Valid(r')
    ensures forall i :: 0 <= i < 4 ==> r'.vertex[i] == Add(r.vertex[i], v)
    ensures r'.base.center == Add(r.base.center, v)
    ensures r'.faceNormal == r.faceNormal
    ensures r'.base.angle == r.base.angle && r'.base.radius == r.base.radius
    ensures r' == r.(base := r'.base, vertex := r'.vertex)
  {
    r.(base := r.base.(center := Add(r.base.center, v)), vertex := Translate(r.vertex, v))
  }

  /** Translation does not change edge vectors, so the normals stay in step
      with the vertices. */
  lemma MoveKeepsConsistent(r: Rect, v: Vec, ops: VecOps)
    requires Consistent(r, ops)
    ensures Consistent(Move(r, v), ops)
  {
    var m := Move(r, v);
    assert Sub(m.vertex[1], m.vertex[2]) == Sub(r.vertex[1], r.vertex[2]);
    assert Sub(m.vertex[2], m.vertex[3]) == Sub(r.vertex[2], r.vertex[3]);
    assert Sub(m.vertex[3], m.vertex[0]) == Sub(r.vertex[3], r.vertex[0]);
    assert Sub(m.vertex[0], m.vertex[1]) == Sub(r.vertex[0], r.vertex[1]);
  }

  /** Moving by `v` and then by `-v` restores the rectangle. */
  lemma MoveRoundTrip(r: Rect, v: Vec)
    requires Valid(r)
    ensures Move(Move(r, v), Vec(-v.x, -v.y)) == r
  {
    var back := Move(Move(r, v), Vec(-v.x, -v.y));
    assert back.vertex == r.vertex;
    assert back.base == r.base;
  }

  /** Every vertex rotated about `pivot` by `angle`. */
  function RotateAll(vs: seq<Vec>, pivot: Vec, angle: real, ops: VecOps): (r: seq<Vec>)
    ensures |r| == |vs|
    ensures forall i :: 0 <= i < |vs| ==> r[i] == ops.rotate(vs[i], pivot, angle)
  {
    if |vs| == 0 then [] else [ops.rotate(vs[0], pivot, angle)] + RotateAll(vs[1..], pivot, angle, ops)
  }

  /** `rotate(angle)`: the angle accumulates, every vertex is rotated about
      the centre, and the four face normals are recomputed from the rotated
      vertices with the constructor's formula. */
  function Rotate(r: Rect, angle: real, ops: VecOps): (r': Rect)
    requires Valid(r)
    ensures Consistent(r', ops)
    ensures r'.base.angle == r.base.angle + angle
    ensures forall i :: 0 <= i < 4 ==> r'.vertex[i] == ops.rotate(r.vertex[i], r.base.center, angle)
    ensures r'.base.center == r.base.center && r'.base.radius == r.base.radius
    ensures r' == r.(base := r'.base, vertex := r'.vertex, faceNormal := r'.faceNormal)
  {
    var vs := RotateAll(r.vertex, r.base.center, angle, ops);
    r.(base := r.base.(angle := r.base.angle + angle), vertex := vs, faceNormal := FaceNormals(vs, ops))
  }

  /** Rotating by an angle and back restores a rectangle whose normals agree
      with its vertices. */
  lemma RotateRoundTrip(r: Rect, angle: real, ops: VecOps)
    requires Consistent(r, ops) && RotationInvertible(ops)
    ensures Rotate(Rotate(r, angle, ops), -angle, ops) == r
  {
    var back := Rotate(Rotate(r, angle, ops), -angle, ops);
    assert back.vertex == r.vertex;
    assert back.base == r.base;
  }
}
