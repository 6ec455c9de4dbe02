/** A worked overlap for the rectangle-rectangle test: two 4 x 4 squares,
    centred at (0, 0) and (3, 0), overlap by one unit along x. Each
    rectangle's search finds depth 1, so the two searches tie and the
    combination takes the second search's normal, reversed. */
module RectRectExamples {
  import opened Vectors
  import opened Support
  import opened Collision
  import opened Rectangle
  import opened RectRect
  import opened Wrappers

  /** The four corners of a 4 x 4 square centred at `(x, 0)`. */
  function SquareVertices(x: real): seq<Vec> {
    [Vec(x - 2.0, -2.0), Vec(x + 2.0, -2.0), Vec(x + 2.0, 2.0), Vec(x - 2.0, 2.0)]
  }

  /** The axis normals: up, right, down, left. */
  const AxisNormals: seq<Vec> := [Vec(0.0, -1.0), Vec(1.0, 0.0), Vec(0.0, 1.0), Vec(-1.0, 0.0)]

  /** The constructor builds exactly those corners and, under a true
      `normalize`, those normals. */
  lemma ConstructedSquare(x: real, invMass: real, c: Rigid.ShapeCollection<Body>, ops: VecOps)
    requires Sound(ops)
    ensures NewRect(Vec(x, 0.0), 4.0, 4.0, invMass, c, ops).0.vertex == SquareVertices(x)
    ensures NewRect(Vec(x, 0.0), 4.0, 4.0, invMass, c, ops).0.faceNormal == AxisNormals
  {
    SquareCorners(x);
    NewRectNormals(Vec(x, 0.0), 4.0, 4.0, invMass, c, ops);
  }

  /** The same, corner by corner. */
  lemma ConstructedIsSquare(x: real, invMass: real, c: Rigid.ShapeCollection<Body>, ops: VecOps)
    requires Sound(ops)
    ensures IsSquare(NewRect(Vec(x, 0.0), 4.0, 4.0, invMass, c, ops).0, x)
  {
    ConstructedSquare(x, invMass, c, ops);
  }

  lemma SquareCorners(x: real)
    ensures Corners(Vec(x, 0.0), 4.0, 4.0) == SquareVertices(x)
  {}

  /** A face's support distance is `m` when vertex `j` projects to `m > 0`
      and no vertex projects further. */
  lemma FaceDistance(a: Rect, b: Rect, i: nat, j: nat, m: real)
    requires Valid(a) && i < 4 && j < |b.vertex| && m > 0.0
    requires Projection(b.vertex[j], a.vertex[i], Scale(a.faceNormal[i], -1.0)) == m
    requires forall k :: 0 <= k < |b.vertex| ==> Projection(b.vertex[k], a.vertex[i], Scale(a.faceNormal[i], -1.0)) <= m
    ensures FaceSupport(a, b, i).Some? && FaceSupport(a, b, i).value.dist == m
  {
    SupportDistance(b.vertex, Scale(a.faceNormal[i], -1.0), a.vertex[i], j, m);
  }

  /** The shapes of the two squares: `a` centred at `(xa, 0)`, `b` at
      `(xb, 0)`, both with the axis normals. */
  predicate Squares(a: Rect, b: Rect, xa: real, xb: real) {
    && IsSquare(a, xa) && IsSquare(b, xb)
  }

  /** `r` is the 4 x 4 square centred at `(x, 0)` with the axis normals,
      stated corner by corner. */
  predicate IsSquare(r: Rect, x: real) {
    && |r.vertex| == 4 && |r.faceNormal| == 4
    && r.vertex[0] == Vec(x - 2.0, -2.0) && r.vertex[1] == Vec(x + 2.0, -2.0)
    && r.vertex[2] == Vec(x + 2.0, 2.0) && r.vertex[3] == Vec(x - 2.0, 2.0)
    && r.faceNormal[0] == Vec(0.0, -1.0) && r.faceNormal[1] == Vec(1.0, 0.0)
    && r.faceNormal[2] == Vec(0.0, 1.0) && r.faceNormal[3] == Vec(-1.0, 0.0)
  }

  /** The top face of `a` (the vertical extents are the same). */
  lemma TopFace(a: Rect, b: Rect, xa: real, xb: real)
    requires Squares(a, b, xa, xb)
    ensures FaceSupport(a, b, 0).Some? && FaceSupport(a, b, 0).value.dist == 4.0
  {
    var dir := Scale(a.faceNormal[0], -1.0);
    assert Projection(b.vertex[0], a.vertex[0], dir) == 0.0;
    assert Projection(b.vertex[1], a.vertex[0], dir) == 0.0;
    assert Projection(b.vertex[2], a.vertex[0], dir) == 4.0;
    assert Projection(b.vertex[3], a.vertex[0], dir) == 4.0;
    FaceDistance(a, b, 0, 2, 4.0);
  }

  /** The right face of `a`: `b`'s left vertices lie `4 - (xb - xa)` beyond
      it. */
  lemma RightFace(a: Rect, b: Rect, xa: real, xb: real)
    requires Squares(a, b, xa, xb) && xb - xa < 4.0
    ensures FaceSupport(a, b, 1).Some? && FaceSupport(a, b, 1).value.dist == 4.0 - (xb - xa)
  {
    var dir := Scale(a.faceNormal[1], -1.0);
    var m := 4.0 - (xb - xa);
    assert Projection(b.vertex[0], a.vertex[1], dir) == m;
    assert Projection(b.vertex[1], a.vertex[1], dir) == m - 4.0;
    assert Projection(b.vertex[2], a.vertex[1], dir) == m - 4.0;
    assert Projection(b.vertex[3], a.vertex[1], dir) == m;
    FaceDistance(a, b, 1, 0, m);
  }

  /** The bottom face of `a`. */
  lemma BottomFace(a: Rect, b: Rect, xa: real, xb: real)
    requires Squares(a, b, xa, xb)
    ensures FaceSupport(a, b, 2).Some? && FaceSupport(a, b, 2).value.dist == 4.0
  {
    var dir := Scale(a.faceNormal[2], -1.0);
    assert Projection(b.vertex[0], a.vertex[2], dir) == 4.0;
    assert Projection(b.vertex[1], a.vertex[2], dir) == 4.0;
    assert Projection(b.vertex[2], a.vertex[2], dir) == 0.0;
    assert Projection(b.vertex[3], a.vertex[2], dir) == 0.0;
    FaceDistance(a, b, 2, 0, 4.0);
  }

  /** The left face of `a`: `b`'s right vertices lie `4 + (xb - xa)` beyond
      it. */
  lemma LeftFace(a: Rect, b: Rect, xa: real, xb: real)
    requires Squares(a, b, xa, xb) && xb - xa > -4.0
    ensures FaceSupport(a, b, 3).Some? && FaceSupport(a, b, 3).value.dist == 4.0 + (xb - xa)
  {
    var dir := Scale(a.faceNormal[3], -1.0);
    var m := 4.0 + (xb - xa);
    assert Projection(b.vertex[0], a.vertex[3], dir) == m - 4.0;
    assert Projection(b.vertex[1], a.vertex[3], dir) == m;
    assert Projection(b.vertex[2], a.vertex[3], dir) == m;
    assert Projection(b.vertex[3], a.vertex[3], dir) == m - 4.0;
    FaceDistance(a, b, 3, 1, m);
  }

  /** The support distances of `b` against the four faces of `a`, when
      the two squares overlap horizontally. */
  lemma SquareDistances(a: Rect, b: Rect, xa: real, xb: real)
    requires Squares(a, b, xa, xb) && -4.0 < xb - xa < 4.0
    ensures Valid(a)
    ensures FaceSupport(a, b, 0).Some? && FaceSupport(a, b, 0).value.dist == 4.0
    ensures FaceSupport(a, b, 1).Some? && FaceSupport(a, b, 1).value.dist == 4.0 - (xb - xa)
    ensures FaceSupport(a, b, 2).Some? && FaceSupport(a, b, 2).value.dist == 4.0
    ensures FaceSupport(a, b, 3).Some? && FaceSupport(a, b, 3).value.dist == 4.0 + (xb - xa)
  {
    TopFace(a, b, xa, xb);
    RightFace(a, b, xa, xb);
    BottomFace(a, b, xa, xb);
    LeftFace(a, b, xa, xb);
  }

  /** Face `k` is the least of four supported faces when no distance is
      below its own and every earlier one is above it. */
  lemma LeastOfFour(s: seq<Option<Support>>, k: nat)
    requires |s| == 4 && k < 4
    requires s[0].Some? && s[1].Some? && s[2].Some? && s[3].Some?
    requires s[k].value.dist < InitialBestDistance
    requires s[0].value.dist >= s[k].value.dist && s[1].value.dist >= s[k].value.dist
    requires s[2].value.dist >= s[k].value.dist && s[3].value.dist >= s[k].value.dist
    requires forall j :: 0 <= j < k ==> s[j].value.dist > s[k].value.dist
    ensures IsLeastFace(s, k)
  {
    forall j | 0 <= j < 4
      ensures s[j].Some? && s[j].value.dist >= s[k].value.dist
    {
      if j == 0 {} else if j == 1 {} else if j == 2 {} else {}
    }
  }

  /** The search over `a`'s faces when the support distances are 4, `m`,
      4 and `n` with `0 < m < 4` and `m < n`: it stops at face 1 with depth
      `m`. */
  lemma RightFaceLeast(a: Rect, b: Rect, m: real, n: real)
    requires Valid(a) && 0.0 < m < 4.0 && m < n
    requires FaceSupport(a, b, 0).Some? && FaceSupport(a, b, 0).value.dist == 4.0
    requires FaceSupport(a, b, 1).Some? && FaceSupport(a, b, 1).value.dist == m
    requires FaceSupport(a, b, 2).Some? && FaceSupport(a, b, 2).value.dist == 4.0
    requires FaceSupport(a, b, 3).Some? && FaceSupport(a, b, 3).value.dist == n
    ensures var q := FindAxisLeastPenetration(a, b);
            q.Collision? && q.info.depth == m && q.info.normal == a.faceNormal[1]
  {
    var s := FaceSupports(a, b);
    assert s[0] == FaceSupport(a, b, 0) && s[1] == FaceSupport(a, b, 1);
    assert s[2] == FaceSupport(a, b, 2) && s[3] == FaceSupport(a, b, 3);
    LeastOfFour(s, 1);
    LeastFaceQuery(a, s, 1);
  }

  /** The same with distances 4, `n`, 4 and `m`: the search stops at face
      3. */
  lemma LeftFaceLeast(a: Rect, b: Rect, m: real, n: real)
    requires Valid(a) && 0.0 < m < 4.0 && m < n
    requires FaceSupport(a, b, 0).Some? && FaceSupport(a, b, 0).value.dist == 4.0
    requires FaceSupport(a, b, 1).Some? && FaceSupport(a, b, 1).value.dist == n
    requires FaceSupport(a, b, 2).Some? && FaceSupport(a, b, 2).value.dist == 4.0
    requires FaceSupport(a, b, 3).Some? && FaceSupport(a, b, 3).value.dist == m
    ensures var q := FindAxisLeastPenetration(a, b);
            q.Collision? && q.info.depth == m && q.info.normal == a.faceNormal[3]
  {
    var s := FaceSupports(a, b);
    assert s[0] == FaceSupport(a, b, 0) && s[1] == FaceSupport(a, b, 1);
    assert s[2] == FaceSupport(a, b, 2) && s[3] == FaceSupport(a, b, 3);
    LeastOfFour(s, 3);
    LeastFaceQuery(a, s, 3);
  }

  /** With `b` to the right of `a` and overlapping it, the search over `a`'s
      faces stops at the right face, whose normal is (1, 0): depth
      `4 - (xb - xa)`. */
  lemma SearchRightward(a: Rect, b: Rect, xa: real, xb: real)
    requires Squares(a, b, xa, xb) && 0.0 < xb - xa < 4.0
    ensures var q := FindAxisLeastPenetration(a, b);
            q.Collision? && q.info.depth == 4.0 - (xb - xa) && q.info.normal == a.faceNormal[1]
  {
    SquareDistances(a, b, xa, xb);
    RightFaceLeast(a, b, 4.0 - (xb - xa), 4.0 + (xb - xa));
  }

  /** With `b` to the left of `a` and overlapping it, the search over `a`'s
      faces stops at the left face, whose normal is (-1, 0): depth
      `4 + (xb - xa)`. */
  lemma SearchLeftward(a: Rect, b: Rect, xa: real, xb: real)
    requires Squares(a, b, xa, xb) && -4.0 < xb - xa < 0.0
    ensures var q := FindAxisLeastPenetration(a, b);
            q.Collision? && q.info.depth == 4.0 + (xb - xa) && q.info.normal == a.faceNormal[3]
  {
    SquareDistances(a, b, xa, xb);
    LeftFaceLeast(a, b, 4.0 + (xb - xa), 4.0 - (xb - xa));
  }

  /** `b`'s left normal is `a`'s right normal reversed. */
  lemma OppositeNormals(a: Rect, b: Rect, xa: real, xb: real)
    requires Squares(a, b, xa, xb)
    ensures b.faceNormal[3] == Scale(a.faceNormal[1], -1.0)
  {}

  /** Two searches that find the same depth `m` with opposite normals
      combine, in either order, into a collision of depth `m` along the
      second search's normal reversed. */
  lemma TiedSearches(a: Rect, b: Rect, m: real, n: Vec)
    requires Valid(a) && Valid(b)
    requires var q := FindAxisLeastPenetration(a, b); q.Collision? && q.info.depth == m && q.info.normal == n
    requires var q := FindAxisLeastPenetration(b, a);
             q.Collision? && q.info.depth == m && q.info.normal == Scale(n, -1.0)
    ensures var q := CollidedRectRect(a, b); q.Collision? && q.info.depth == m && q.info.normal == n
    ensures var q := CollidedRectRect(b, a);
            q.Collision? && q.info.depth == m && q.info.normal == Scale(n, -1.0)
  {
    var q1, q2 := FindAxisLeastPenetration(a, b), FindAxisLeastPenetration(b, a);
    CombineTied(q1, q2);
    CombineTied(q2, q1);
    NegateTwice(n);
  }

  /** Two side-by-side 4 x 4 squares overlapping by `4 - (xb - xa)` collide
      in either order with that depth. Both searches find the same depth,
      so each order takes the second search's normal reversed: (1, 0) from
      `a` towards `b`, and (-1, 0) the other way. */
  lemma SideBySide(a: Rect, b: Rect, xa: real, xb: real)
    requires Squares(a, b, xa, xb) && 0.0 < xb - xa < 4.0
    ensures var q := CollidedRectRect(a, b);
            q.Collision? && q.info.depth == 4.0 - (xb - xa) && q.info.normal.x == 1.0 && q.info.normal.y == 0.0
    ensures var q := CollidedRectRect(b, a);
            q.Collision? && q.info.depth == 4.0 - (xb - xa) && q.info.normal.x == -1.0 && q.info.normal.y == 0.0
  {
    SearchRightward(a, b, xa, xb);
    SearchLeftward(b, a, xb, xa);
    OppositeNormals(a, b, xa, xb);
    TiedSearches(a, b, 4.0 - (xb - xa), a.faceNormal[1]);
  }

  /** Squares centred three units apart on the x axis overlap by one unit. */
  lemma OneUnitOverlap(r1: Rect, r2: Rect, x1: real, x2: real)
    requires IsSquare(r1, x1) && IsSquare(r2, x2) && x2 - x1 == 3.0
    ensures Valid(r1) && Valid(r2)
    ensures var q := CollidedRectRect(r1, r2);
            q.Collision? && q.info.depth == 1.0 && q.info.normal.x == 1.0 && q.info.normal.y == 0.0
    ensures var q := CollidedRectRect(r2, r1);
            q.Collision? && q.info.depth == 1.0 && q.info.normal.x == -1.0 && q.info.normal.y == 0.0
  {
    SideBySide(r1, r2, x1, x2);
  }

  /** The constructor's 4 x 4 squares at (0, 0) and (3, 0) overlap by one
      unit: depth 1, normal (1, 0) from the first towards the second, and
      (-1, 0) with the two swapped. */
  lemma ConstructedOverlap(m1: real, c1: Rigid.ShapeCollection<Body>, m2: real, c2: Rigid.ShapeCollection<Body>,
                           ops: VecOps)
    requires Sound(ops)
    ensures var r1, r2 := NewRect(Vec(0.0, 0.0), 4.0, 4.0, m1, c1, ops).0,
                          NewRect(Vec(3.0, 0.0), 4.0, 4.0, m2, c2, ops).0;
            && CollidedRectRect(r1, r2).Collision?
            && CollidedRectRect(r1, r2).info.depth == 1.0
            && CollidedRectRect(r1, r2).info.normal.x == 1.0 && CollidedRectRect(r1, r2).info.normal.y == 0.0
            && CollidedRectRect(r2, r1).Collision?
            && CollidedRectRect(r2, r1).info.depth == 1.0
            && CollidedRectRect(r2, r1).info.normal.x == -1.0 && CollidedRectRect(r2, r1).info.normal.y == 0.0
  {
    var r1, r2 := NewRect(Vec(0.0, 0.0), 4.0, 4.0, m1, c1, ops).0,
                  NewRect(Vec(3.0, 0.0), 4.0, 4.0, m2, c2, ops).0;
    ConstructedIsSquare(0.0, m1, c1, ops);
    ConstructedIsSquare(3.0, m2, c2, ops);
    OneUnitOverlap(r1, r2, 0.0, 3.0);
  }
}
