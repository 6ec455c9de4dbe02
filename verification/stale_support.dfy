/** `findAxisLeastPenetration` as written
    (lib/src/module/rigid/engine.shape.rectangle.ts:84-91). The support
    search runs on the other rectangle and stores its result in the OTHER
    rectangle's `tmpSupport`, but the loop then reads `this.tmpSupport`,
    which the search never writes. For two distinct rectangles every face
    therefore reads the same value: whatever this rectangle's `tmpSupport`
    held before the call. The rest of the model uses the evidently intended
    reading, `RectRect.FindAxisLeastPenetration`. */
module StaleSupport {
  import opened Wrappers
  import opened Vectors
  import opened Support
  import opened Rigid
  import opened Collision
  import opened Rectangle
  import opened RectRect

  /** `a.findAxisLeastPenetration(b, info)` as written, for `a` and `b`
      distinct, where `own` is what `a.tmpSupport` holds on entry. The
      second component is what `b.tmpSupport` holds afterwards: the support
      of the last face searched, which is face 3 when the loop runs to the
      end and face 0 when it stops at once. */
  function FindAxisAsWritten(a: Rect, b: Rect, own: Option<Support>): (r: (Query, Option<Support>))
    requires Valid(a)
    ensures r.0.NoCollision? <==> own.None?
    ensures r.0.Throws? <==> own.Some? && own.value.dist >= InitialBestDistance
    ensures r.0.Collision? ==> r.0.info == FaceContact(a, 0, own.value)
    ensures r.1 == FaceSupport(a, b, if own.Some? then 3 else 0)
  {
    ConstantSupportsPickFirstFace(a, own);
    (AxisQuery(a, [own, own, own, own]), FaceSupport(a, b, if own.Some? then 3 else 0))
  }

  /** When every face reads the same support, the first face is the one
      kept. */
  lemma ConstantSupportsPickFirstFace(a: Rect, own: Option<Support>)
    requires Valid(a)
    ensures var q := AxisQuery(a, [own, own, own, own]);
            q.Collision? ==> q.info == FaceContact(a, 0, own.value)
  {
    var s := [own, own, own, own];
    var q := AxisQuery(a, s);
    if q.Collision? {
      var k :| IsLeastFace(s, k) && q.info == FaceContact(a, k, s[k].value);
      if k > 0 {
        assert s[0].value.dist > s[k].value.dist;
      }
    }
  }

  /** `collidedRectRect(r1, r2, info)` as written, where `own1` is what
      `r1.tmpSupport` holds on entry. The second search reads
      `r2.tmpSupport`, which the first search has just overwritten with a
      support of `r2` itself. The two results are combined as in
      `RectRect.CollidedRectRect`. */
  function CollidedAsWritten(r1: Rect, r2: Rect, own1: Option<Support>): (q: Query)
    requires Valid(r1) && Valid(r2)
    ensures own1.None? ==> q == NoCollision
  {
    var (q1, left2) := FindAxisAsWritten(r1, r2, own1);
    CombineSearches(q1, FindAxisAsWritten(r2, r1, left2).0)
  }

  /** The outcome as written does not depend on the other rectangle at
      all: with no stored support there is never a collision, and with a
      stored support below the starting value there always is one. */
  lemma AsWrittenIgnoresOther(a: Rect, b1: Rect, b2: Rect, own: Option<Support>)
    requires Valid(a)
    ensures FindAxisAsWritten(a, b1, own).0 == FindAxisAsWritten(a, b2, own).0
  {}

  /** A 2 x 2 square at (0, 0) and one at (10, 0): the right face of the
      first separates them. */
  lemma FarSquaresSeparated(r1: Rect, r2: Rect)
    requires r1.vertex == [Vec(-1.0, -1.0), Vec(1.0, -1.0), Vec(1.0, 1.0), Vec(-1.0, 1.0)]
    requires r2.vertex == [Vec(9.0, -1.0), Vec(11.0, -1.0), Vec(11.0, 1.0), Vec(9.0, 1.0)]
    requires r1.faceNormal == [Vec(0.0, -1.0), Vec(1.0, 0.0), Vec(0.0, 1.0), Vec(-1.0, 0.0)]
    requires Valid(r2)
    ensures CollidedRectRect(r1, r2) == NoCollision
  {
    var dir := Scale(r1.faceNormal[1], -1.0);
    assert dir == Vec(-1.0, 0.0);
    assert Projection(r2.vertex[0], r1.vertex[1], dir) == -8.0;
    assert Projection(r2.vertex[1], r1.vertex[1], dir) == -10.0;
    assert Projection(r2.vertex[2], r1.vertex[1], dir) == -10.0;
    assert Projection(r2.vertex[3], r1.vertex[1], dir) == -8.0;
    assert FaceSupport(r1, r2, 1).None?;
  }

  /** The left face of the first square finds a support in the second, at
      a distance below the starting value. */
  lemma FarSquaresLeftSupport(r1: Rect, r2: Rect)
    requires r1.vertex == [Vec(-1.0, -1.0), Vec(1.0, -1.0), Vec(1.0, 1.0), Vec(-1.0, 1.0)]
    requires r2.vertex == [Vec(9.0, -1.0), Vec(11.0, -1.0), Vec(11.0, 1.0), Vec(9.0, 1.0)]
    requires r1.faceNormal == [Vec(0.0, -1.0), Vec(1.0, 0.0), Vec(0.0, 1.0), Vec(-1.0, 0.0)]
    ensures FaceSupport(r1, r2, 3).Some? && FaceSupport(r1, r2, 3).value.dist < InitialBestDistance
  {
    var dir := Scale(r1.faceNormal[3], -1.0);
    assert dir == Vec(1.0, 0.0);
    assert Projection(r2.vertex[0], r1.vertex[3], dir) == 10.0;
    assert Projection(r2.vertex[1], r1.vertex[3], dir) == 12.0;
    assert Projection(r2.vertex[2], r1.vertex[3], dir) == 12.0;
    assert Projection(r2.vertex[3], r1.vertex[3], dir) == 10.0;
  }

  /** As written, a support stored in the first square before the call
      makes the two far-apart squares collide. */
  lemma FarSquaresCollide(r1: Rect, r2: Rect, sp: Support)
    requires r1.vertex == [Vec(-1.0, -1.0), Vec(1.0, -1.0), Vec(1.0, 1.0), Vec(-1.0, 1.0)]
    requires r2.vertex == [Vec(9.0, -1.0), Vec(11.0, -1.0), Vec(11.0, 1.0), Vec(9.0, 1.0)]
    requires r1.faceNormal == [Vec(0.0, -1.0), Vec(1.0, 0.0), Vec(0.0, 1.0), Vec(-1.0, 0.0)]
    requires Valid(r2) && sp.dist < InitialBestDistance
    ensures CollidedAsWritten(r1, r2, Some(sp)).Collision?
  {
    FarSquaresLeftSupport(r1, r2);
  }

  /** Two far-apart 2 x 2 squares, given by their vertices and normals
      (`ConstructedFarSquares` shows these are the ones the constructor
      builds): as written, a support stored in the first square before the
      call makes them collide, while the evidently intended search finds
      the separating face. */
  lemma FarSquaresCounterexample(r1: Rect, r2: Rect, sp: Support)
    requires r1.vertex == [Vec(-1.0, -1.0), Vec(1.0, -1.0), Vec(1.0, 1.0), Vec(-1.0, 1.0)]
    requires r2.vertex == [Vec(9.0, -1.0), Vec(11.0, -1.0), Vec(11.0, 1.0), Vec(9.0, 1.0)]
    requires r1.faceNormal == [Vec(0.0, -1.0), Vec(1.0, 0.0), Vec(0.0, 1.0), Vec(-1.0, 0.0)]
    requires Valid(r2) && sp.dist < InitialBestDistance
    ensures CollidedAsWritten(r1, r2, Some(sp)).Collision?
    ensures CollidedRectRect(r1, r2) == NoCollision
  {
    FarSquaresCollide(r1, r2, sp);
    FarSquaresSeparated(r1, r2);
  }

  /** The 2 x 2 square the constructor builds at `(x, 0)`, under a true
      `normalize`. */
  lemma SquareShape(x: real, invMass: real, c: ShapeCollection<Body>, ops: VecOps)
    requires Sound(ops)
    ensures var r := NewRect(Vec(x, 0.0), 2.0, 2.0, invMass, c, ops).0;
            && Valid(r)
            && r.vertex == [Vec(x - 1.0, -1.0), Vec(x + 1.0, -1.0), Vec(x + 1.0, 1.0), Vec(x - 1.0, 1.0)]
            && r.faceNormal == [Vec(0.0, -1.0), Vec(1.0, 0.0), Vec(0.0, 1.0), Vec(-1.0, 0.0)]
  {
    SquareCorners(x);
    NewRectNormals(Vec(x, 0.0), 2.0, 2.0, invMass, c, ops);
  }

  /** The corners of a 2 x 2 square centred at `(x, 0)`. */
  lemma SquareCorners(x: real)
    ensures Corners(Vec(x, 0.0), 2.0, 2.0)
            == [Vec(x - 1.0, -1.0), Vec(x + 1.0, -1.0), Vec(x + 1.0, 1.0), Vec(x - 1.0, 1.0)]
  {}

  /** The counterexample on squares built by the constructor at (0, 0) and
      (10, 0), whatever their masses and collections. */
  lemma ConstructedFarSquares(m1: real, c1: ShapeCollection<Body>, m2: real, c2: ShapeCollection<Body>,
                              sp: Support, ops: VecOps)
    requires Sound(ops) && sp.dist < InitialBestDistance
    ensures var r1, r2 := NewRect(Vec(0.0, 0.0), 2.0, 2.0, m1, c1, ops).0,
                          NewRect(Vec(10.0, 0.0), 2.0, 2.0, m2, c2, ops).0;
            && CollidedAsWritten(r1, r2, Some(sp)).Collision?
            && CollidedRectRect(r1, r2) == NoCollision
  {
    var r1, r2 := NewRect(Vec(0.0, 0.0), 2.0, 2.0, m1, c1, ops).0,
                  NewRect(Vec(10.0, 0.0), 2.0, 2.0, m2, c2, ops).0;
    SquareShape(0.0, m1, c1, ops);
    SquareShape(10.0, m2, c2, ops);
    FarSquaresCounterexample(r1, r2, sp);
  }
}
