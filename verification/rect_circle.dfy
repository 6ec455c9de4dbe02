/** Rectangle against circle (`collidedRectCirc`,
    lib/src/module/rigid/engine.shape.rectangle.ts:161-258). The circle's
    centre is located relative to the rectangle: inside it, in the corner
    region at either end of the face it lies beyond, or in that face's own
    region; each case decides the collision and its information in its own
    way. */
module RectCircle {
  import opened Vectors
  import opened Collision
  import opened Rectangle

  /** The starting value of the best face distance. */
  const InitialNearestDistance: real := -99999.0

  /** Signed distance of the point `c` beyond face `i`: positive outside
      the face's half-plane. */
  function FaceProjection(r: Rect, c: Vec, i: nat): real
    requires Valid(r) && i < 4
  {
    Dot(Sub(c, r.vertex[i]), r.faceNormal[i])
  }

  /** The outcome of the face loop: whether the centre was found on the
      inner side of every face, the face it settled on, and that face's
      distance. */
  datatype Nearest = Nearest(inside: bool, edge: nat, dist: real)

  /** What the face loop keeps over the faces before `i` while all of them
      have the centre on their inner side: either no distance rose above
      the starting value (and face 0 is kept), or `edge` is the first face
      with the greatest distance. */
  predicate KeptNearest(r: Rect, c: Vec, i: nat, best: real, edge: nat)
    requires Valid(r) && i <= 4
  {
    || (&& best == InitialNearestDistance && edge == 0
        && forall j :: 0 <= j < i ==> FaceProjection(r, c, j) <= InitialNearestDistance)
    || (&& edge < i && best == FaceProjection(r, c, edge) && best > InitialNearestDistance
        && (forall j :: 0 <= j < i ==> FaceProjection(r, c, j) <= best)
        && (forall j :: 0 <= j < edge ==> FaceProjection(r, c, j) < best))
  }

  /** The face loop from face `i` on: it stops at the first face with the
      centre strictly beyond it, and otherwise keeps the greatest distance
      with the first face that reached it. */
  function ScanFaces(r: Rect, c: Vec, i: nat, best: real, edge: nat): (n: Nearest)
    requires Valid(r) && i <= 4 && edge < 4
    requires forall j :: 0 <= j < i ==> FaceProjection(r, c, j) <= 0.0
    requires KeptNearest(r, c, i, best, edge)
    ensures n.edge < 4
    ensures n.inside <==> forall j :: 0 <= j < 4 ==> FaceProjection(r, c, j) <= 0.0
    ensures !n.inside ==>
              && n.dist == FaceProjection(r, c, n.edge) > 0.0
              && forall j :: 0 <= j < n.edge ==> FaceProjection(r, c, j) <= 0.0
    ensures n.inside ==> KeptNearest(r, c, 4, n.dist, n.edge)
    decreases 4 - i
  {
    if i == 4 then
      Nearest(true, edge, best)
    else
      var projection := FaceProjection(r, c, i);
      if projection > 0.0 then
        Nearest(false, i, projection)
      else if projection > best then
        ScanFaces(r, c, i + 1, projection, i)
      else
        ScanFaces(r, c, i + 1, best, edge)
  }

  /** The face loop of `collidedRectCirc` over all four faces. */
  function NearestFace(r: Rect, c: Vec): (n: Nearest)
    requires Valid(r)
    ensures n.edge < 4
    ensures n.inside <==> forall j :: 0 <= j < 4 ==> FaceProjection(r, c, j) <= 0.0
    ensures !n.inside ==>
              && n.dist == FaceProjection(r, c, n.edge) > 0.0
              && forall j :: 0 <= j < n.edge ==> FaceProjection(r, c, j) <= 0.0
    ensures n.inside ==> KeptNearest(r, c, 4, n.dist, n.edge)
  {
    ScanFaces(r, c, 0, InitialNearestDistance, 0)
  }

  /** From the first vertex of face `e` to the centre. */
  function StartOffset(r: Rect, c: Vec, e: nat): Vec
    requires Valid(r) && e < 4
  {
    Sub(c, r.vertex[e])
  }

  /** From the second vertex of face `e` to the centre. */
  function EndOffset(r: Rect, c: Vec, e: nat): Vec
    requires Valid(r) && e < 4
  {
    Sub(c, r.vertex[(e + 1) % 4])
  }

  /** Face `e` as a vector from its first vertex to its second. */
  function FaceVector(r: Rect, e: nat): Vec
    requires Valid(r) && e < 4
  {
    Sub(r.vertex[(e + 1) % 4], r.vertex[e])
  }

  /** Where the centre lies: inside the rectangle, in the corner region
      before the first vertex of its face, past the second vertex, or
      beside the face itself. */
  datatype Region = Inside | StartCorner | EndCorner | FaceRegion

  function RegionOf(r: Rect, c: Vec): (g: Region)
    requires Valid(r)
    ensures var e := NearestFace(r, c).edge;
            && (g == Inside <==> forall j :: 0 <= j < 4 ==> FaceProjection(r, c, j) <= 0.0)
            && (g == StartCorner ==> Dot(StartOffset(r, c, e), FaceVector(r, e)) < 0.0)
            && (g == EndCorner ==>
                  Dot(StartOffset(r, c, e), FaceVector(r, e)) >= 0.0
                  && Dot(EndOffset(r, c, e), Scale(FaceVector(r, e), -1.0)) < 0.0)
            && (g == FaceRegion ==>
                  Dot(StartOffset(r, c, e), FaceVector(r, e)) >= 0.0
                  && Dot(EndOffset(r, c, e), Scale(FaceVector(r, e), -1.0)) >= 0.0)
  {
    var n := NearestFace(r, c);
    if n.inside then
      Inside
    else if Dot(StartOffset(r, c, n.edge), FaceVector(r, n.edge)) < 0.0 then
      StartCorner
    else if Dot(EndOffset(r, c, n.edge), Scale(FaceVector(r, n.edge), -1.0)) < 0.0 then
      EndCorner
    else
      FaceRegion
  }

  /** The corner case: `v` runs from the corner to the centre. The circle
      misses when that distance exceeds the radius; otherwise the depth is
      the radius less the distance, the normal is `v` normalised, and the
      contact point is the centre moved back along it by the radius. */
  function CornerQuery(c: Vec, radius: real, v: Vec, ops: VecOps): (q: Query)
    ensures !q.Throws?
    ensures q.Collision? <==> ops.length(v) <= radius
    ensures q.Collision? ==>
              && q.info.depth == radius - ops.length(v)
              && q.info.normal == ops.normalize(v)
              && Add(q.info.start, Scale(q.info.normal, radius)) == c
  {
    var dis := ops.length(v);
    if dis > radius then
      NoCollision
    else
      var normal := ops.normalize(v);
      ScaleNegatedCancel(c, normal, radius);
      Collision(CollisionInfo(radius - dis, normal, Add(c, Scale(normal, -radius))))
  }

  /** The information written when the centre is inside or beside face
      `e` at distance `dist`: the radius less the distance, the face normal,
      and the centre moved back along the normal by the radius. */
  function FaceQueryInfo(r: Rect, c: Vec, radius: real, e: nat, dist: real): (info: CollisionInfo)
    requires Valid(r) && e < 4
    ensures info.depth + dist == radius
    ensures info.normal == r.faceNormal[e]
    ensures Add(info.start, Scale(info.normal, radius)) == c
  {
    var back := Scale(r.faceNormal[e], radius);
    SubAddCancel(c, back);
    CollisionInfo(radius - dist, r.faceNormal[e], Sub(c, back))
  }

  /** `r.collidedRectCirc(circ, info)`. It never throws. A centre inside
      the rectangle always collides, against the face it is nearest to; in
      a corner region the decision is the corner's; beside a face the
      circle collides exactly when the centre is closer to the face than
      the radius. */
  function CollidedRectCirc(r: Rect, circ: Circle, ops: VecOps): (q: Query)
    requires Valid(r)
    ensures !q.Throws?
    ensures var n, c := NearestFace(r, circ.center), circ.center;
            && (RegionOf(r, c) == Inside ==>
                  q == Collision(FaceQueryInfo(r, c, circ.radius, n.edge, n.dist)))
            && (RegionOf(r, c) == StartCorner ==> q == CornerQuery(c, circ.radius, StartOffset(r, c, n.edge), ops))
            && (RegionOf(r, c) == EndCorner ==> q == CornerQuery(c, circ.radius, EndOffset(r, c, n.edge), ops))
            && (RegionOf(r, c) == FaceRegion ==>
                  (q.Collision? <==> n.dist < circ.radius)
                  && (q.Collision? ==> q.info == FaceQueryInfo(r, c, circ.radius, n.edge, n.dist)))
  {
    var c := circ.center;
    var n := NearestFace(r, c);
    match RegionOf(r, c)
    case Inside => Collision(FaceQueryInfo(r, c, circ.radius, n.edge, n.dist))
    case StartCorner => CornerQuery(c, circ.radius, StartOffset(r, c, n.edge), ops)
    case EndCorner => CornerQuery(c, circ.radius, EndOffset(r, c, n.edge), ops)
    case FaceRegion =>
      if n.dist < circ.radius then Collision(FaceQueryInfo(r, c, circ.radius, n.edge, n.dist)) else NoCollision
  }

  /** A centre inside the rectangle collides with depth at least the radius
      (the centre's distance to the nearest face is not positive), against
      a face no other face is nearer than, unless every face is further
      away than the starting value, in which case face 0 is used with the
      starting value as distance. */
  lemma InsideCollides(r: Rect, circ: Circle, ops: VecOps)
    requires Valid(r) && RegionOf(r, circ.center) == Inside
    ensures var q := CollidedRectCirc(r, circ, ops);
            && q.Collision? && q.info.depth >= circ.radius
            && q.info.normal in r.faceNormal
            && (|| (q.info.depth == circ.radius - InitialNearestDistance && q.info.normal == r.faceNormal[0])
                || (exists e :: 0 <= e < 4 && q.info.normal == r.faceNormal[e]
                      && q.info.depth == circ.radius - FaceProjection(r, circ.center, e)
                      && forall j :: 0 <= j < 4 ==> FaceProjection(r, circ.center, j) <= FaceProjection(r, circ.center, e)))
  {
    var n := NearestFace(r, circ.center);
    assert KeptNearest(r, circ.center, 4, n.dist, n.edge);
  }

  /** A corner contact under a true `length` and `normalize`: the circle
      collides exactly when the corner lies within the radius of the centre
      (comparing squares), the depth is then not negative, and the normal
      is the unit vector from the corner towards the centre. */
  lemma CornerContact(c: Vec, radius: real, v: Vec, ops: VecOps)
    requires Sound(ops) && v != Zero
    ensures CornerQuery(c, radius, v, ops).Collision? <==> radius >= 0.0 && LengthSq(v) <= radius * radius
    ensures CornerQuery(c, radius, v, ops).Collision? ==>
              && CornerQuery(c, radius, v, ops).info.depth >= 0.0
              && IsUnitAlong(CornerQuery(c, radius, v, ops).info.normal, v)
  {
    assert LengthIsNorm(ops);
    LengthAtMost(ops.length, v, radius);
  }

  /** In a corner region the offset from the corner to the centre is not
      zero, so the corner contact above applies. */
  lemma CornerOffsetNonZero(r: Rect, c: Vec)
    requires Valid(r)
    ensures var e := NearestFace(r, c).edge;
            && (RegionOf(r, c) == StartCorner ==> StartOffset(r, c, e) != Zero)
            && (RegionOf(r, c) == EndCorner ==> EndOffset(r, c, e) != Zero)
  {}

  /** Beside a face the circle collides exactly when the centre is closer
      to the face than the radius, with a positive depth. */
  lemma FaceRegionContact(r: Rect, circ: Circle, ops: VecOps)
    requires Valid(r) && RegionOf(r, circ.center) == FaceRegion
    ensures var q, n := CollidedRectCirc(r, circ, ops), NearestFace(r, circ.center);
            && (q.Collision? <==> FaceProjection(r, circ.center, n.edge) < circ.radius)
            && (q.Collision? ==> q.info.depth > 0.0 && q.info.normal == r.faceNormal[n.edge])
  {}
}

module RectCircleExamples {
  import opened Vectors
  import opened Rigid
  import opened Collision
  import opened Rectangle
  import opened RectCircle

  /** A 4 x 4 rectangle centred at (3, 0) spans x from 1 to 5. */
  function Box(c: ShapeCollection<Body>, ops: VecOps): Rect {
    NewRect(Vec(3.0, 0.0), 4.0, 4.0, 1.0, c, ops).0
  }

  /** Where the box is, for a true `normalize`. */
  lemma BoxShape(c: ShapeCollection<Body>, ops: VecOps)
    requires Sound(ops)
    ensures Valid(Box(c, ops))
    ensures Box(c, ops).vertex == [Vec(1.0, -2.0), Vec(5.0, -2.0), Vec(5.0, 2.0), Vec(1.0, 2.0)]
    ensures Box(c, ops).faceNormal == [Vec(0.0, -1.0), Vec(1.0, 0.0), Vec(0.0, 1.0), Vec(-1.0, 0.0)]
  {
    NewRectNormals(Vec(3.0, 0.0), 4.0, 4.0, 1.0, c, ops);
  }

  /** A circle of radius `radius` centred at the origin lies beside the
      box's left face, one unit away. It collides exactly when the radius
      exceeds 1: a circle that only touches the face (radius 1) is not a
      collision. */
  lemma CircleBesideLeftFace(c: ShapeCollection<Body>, radius: real, ops: VecOps)
    requires Sound(ops)
    ensures CollidedRectCirc(Box(c, ops), Circle(Zero, radius), ops).Collision? <==> radius > 1.0
    ensures radius > 1.0 ==>
              CollidedRectCirc(Box(c, ops), Circle(Zero, radius), ops)
              == Collision(CollisionInfo(radius - 1.0, Vec(-1.0, 0.0), Vec(radius, 0.0)))
  {
    BoxShape(c, ops);
    LeftFace(Box(c, ops), radius, ops);
  }

  lemma LeftFace(r: Rect, radius: real, ops: VecOps)
    requires r.vertex == [Vec(1.0, -2.0), Vec(5.0, -2.0), Vec(5.0, 2.0), Vec(1.0, 2.0)]
    requires r.faceNormal == [Vec(0.0, -1.0), Vec(1.0, 0.0), Vec(0.0, 1.0), Vec(-1.0, 0.0)]
    ensures CollidedRectCirc(r, Circle(Zero, radius), ops).Collision? <==> radius > 1.0
    ensures radius > 1.0 ==>
              CollidedRectCirc(r, Circle(Zero, radius), ops)
              == Collision(CollisionInfo(radius - 1.0, Vec(-1.0, 0.0), Vec(radius, 0.0)))
  {
    LeftFaceRegion(r);
    LeftFaceInfo(r, radius);
    var q := CollidedRectCirc(r, Circle(Zero, radius), ops);
    assert q.Collision? <==> 1.0 < radius;
    assert q.Collision? ==> q.info == FaceQueryInfo(r, Zero, radius, 3, 1.0);
  }

  /** The contact written beside the left face of that box. */
  lemma LeftFaceInfo(r: Rect, radius: real)
    requires r.vertex == [Vec(1.0, -2.0), Vec(5.0, -2.0), Vec(5.0, 2.0), Vec(1.0, 2.0)]
    requires r.faceNormal == [Vec(0.0, -1.0), Vec(1.0, 0.0), Vec(0.0, 1.0), Vec(-1.0, 0.0)]
    ensures FaceQueryInfo(r, Zero, radius, 3, 1.0) == CollisionInfo(radius - 1.0, Vec(-1.0, 0.0), Vec(radius, 0.0))
  {
    assert Scale(r.faceNormal[3], radius) == Vec(-radius, 0.0);
  }

  /** The origin lies beside the left face of that box, one unit out. */
  lemma LeftFaceRegion(r: Rect)
    requires r.vertex == [Vec(1.0, -2.0), Vec(5.0, -2.0), Vec(5.0, 2.0), Vec(1.0, 2.0)]
    requires r.faceNormal == [Vec(0.0, -1.0), Vec(1.0, 0.0), Vec(0.0, 1.0), Vec(-1.0, 0.0)]
    ensures NearestFace(r, Zero) == Nearest(false, 3, 1.0)
    ensures RegionOf(r, Zero) == FaceRegion
  {
    LeftFaceNearest(r);
    LeftFaceCornerTests(r);
  }

  /** Both corner tests for the left face pass at the origin. */
  lemma LeftFaceCornerTests(r: Rect)
    requires Valid(r) && r.vertex[0] == Vec(1.0, -2.0) && r.vertex[3] == Vec(1.0, 2.0)
    ensures Dot(StartOffset(r, Zero, 3), FaceVector(r, 3)) >= 0.0
    ensures Dot(EndOffset(r, Zero, 3), Scale(FaceVector(r, 3), -1.0)) >= 0.0
  {
    assert (3 + 1) % 4 == 0;
  }

  /** The face loop stops at the left face, the first the origin lies
      beyond, one unit out. */
  lemma LeftFaceNearest(r: Rect)
    requires r.vertex == [Vec(1.0, -2.0), Vec(5.0, -2.0), Vec(5.0, 2.0), Vec(1.0, 2.0)]
    requires r.faceNormal == [Vec(0.0, -1.0), Vec(1.0, 0.0), Vec(0.0, 1.0), Vec(-1.0, 0.0)]
    ensures NearestFace(r, Zero) == Nearest(false, 3, 1.0)
  {
    assert FaceProjection(r, Zero, 0) == -2.0;
    assert FaceProjection(r, Zero, 1) == -5.0;
    assert FaceProjection(r, Zero, 2) == -2.0;
    assert FaceProjection(r, Zero, 3) == 1.0;
  }
}
