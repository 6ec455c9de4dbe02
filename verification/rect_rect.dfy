/** Rectangle against rectangle by the separating axis theorem
    (`findAxisLeastPenetration` and `collidedRectRect`,
    lib/src/module/rigid/engine.shape.rectangle.ts:65-105 and 129-159).
    For every face of one rectangle the other's support vertex is searched
    along the inward normal; a face without support is a separating axis,
    and otherwise the face with the least support distance gives the
    penetration. */
module RectRect {
  import opened Wrappers
  import opened Vectors
  import opened Support
  import opened Collision
  import opened Rectangle

  /** The starting value of the best distance. A face whose support distance
      is not below it is never chosen. */
  const InitialBestDistance: real := 999999.0

  /** The support of `b` against face `i` of `a`: searched along the
      reversed face normal, beyond the face's first vertex. */
  function FaceSupport(a: Rect, b: Rect, i: nat): Option<Support>
    requires Valid(a) && i < 4
  {
    FindSupportPoint(b.vertex, Scale(a.faceNormal[i], -1.0), a.vertex[i])
  }

  /** The supports of `b` against the four faces of `a`, in face order. */
  function FaceSupports(a: Rect, b: Rect): (s: seq<Option<Support>>)
    requires Valid(a)
    ensures |s| == 4
    ensures forall i :: 0 <= i < 4 ==> s[i] == FaceSupport(a, b, i)
  {
    [FaceSupport(a, b, 0), FaceSupport(a, b, 1), FaceSupport(a, b, 2), FaceSupport(a, b, 3)]
  }

  /** Face `k` is the one the search picks: every face has support, face
      `k`'s distance is below the starting value, no face has a smaller
      distance, and every earlier face has a strictly larger one (the first
      face wins ties). */
  predicate IsLeastFace(s: seq<Option<Support>>, k: int) {
    && 0 <= k < |s|
    && (forall j :: 0 <= j < |s| ==> s[j].Some?)
    && s[k].value.dist < InitialBestDistance
    && (forall j :: 0 <= j < |s| ==> s[j].value.dist >= s[k].value.dist)
    && (forall j :: 0 <= j < k ==> s[j].value.dist > s[k].value.dist)
  }

  /** At most one face is the least one. */
  lemma LeastFaceUnique(s: seq<Option<Support>>, k1: int, k2: int)
    requires IsLeastFace(s, k1) && IsLeastFace(s, k2)
    ensures k1 == k2
  {}

  /** The outcome of the face loop: it stopped at a face without support, or
      every face had support and `best` is the index it kept (`null` when no
      distance was below the starting value). */
  datatype AxisScan = Unsupported | Supported(best: Option<nat>)

  /** The face loop from face `i` on, over the supports `s` it reads, with
      the best distance and index kept so far. */
  function ScanAxes(s: seq<Option<Support>>, i: nat, bestDistance: real, best: Option<nat>): (r: AxisScan)
    requires i <= |s|
    requires forall j :: 0 <= j < i ==> s[j].Some?
    requires best.None? ==>
               && bestDistance == InitialBestDistance
               && forall j :: 0 <= j < i ==> s[j].value.dist >= InitialBestDistance
    requires best.Some? ==>
               && best.value < i
               && bestDistance == s[best.value].value.dist
               && bestDistance < InitialBestDistance
               && (forall j :: 0 <= j < i ==> s[j].value.dist >= bestDistance)
               && (forall j :: 0 <= j < best.value ==> s[j].value.dist > bestDistance)
    ensures r.Unsupported? <==> exists j :: 0 <= j < |s| && s[j].None?
    ensures r == Supported(None) <==>
              forall j :: 0 <= j < |s| ==> s[j].Some? && s[j].value.dist >= InitialBestDistance
    ensures r.Supported? && r.best.Some? ==> IsLeastFace(s, r.best.value)
    decreases |s| - i
  {
    if i == |s| then
      Supported(best)
    else
      match s[i]
      case None => Unsupported
      case Some(sp) =>
        if sp.dist < bestDistance then
          ScanAxes(s, i + 1, sp.dist, Some(i))
        else
          ScanAxes(s, i + 1, bestDistance, best)
  }

  /** The information written for the chosen face `k` with support `sp`:
      the support distance, the face normal, and the support vertex pushed
      out along the normal by the distance. */
  function FaceContact(a: Rect, k: nat, sp: Support): CollisionInfo
    requires Valid(a) && k < 4
  {
    CollisionInfo(sp.dist, a.faceNormal[k], Add(sp.point, Scale(a.faceNormal[k], sp.dist)))
  }

  /** The decision `findAxisLeastPenetration` takes from the supports `s`
      it reads, one per face of `a`: no collision exactly when some face has
      no support; the TypeError exactly when every face has support but no
      distance is below the starting value; otherwise the contact of the
      least face. */
  function AxisQuery(a: Rect, s: seq<Option<Support>>): (q: Query)
    requires Valid(a) && |s| == 4
    ensures q.NoCollision? <==> exists i :: 0 <= i < 4 && s[i].None?
    ensures q.Throws? <==> forall i :: 0 <= i < 4 ==> s[i].Some? && s[i].value.dist >= InitialBestDistance
    ensures q.Collision? ==> exists k :: IsLeastFace(s, k) && q.info == FaceContact(a, k, s[k].value)
  {
    match ScanAxes(s, 0, InitialBestDistance, None)
    case Unsupported => NoCollision
    case Supported(None) => Throws
    case Supported(Some(k)) => Collision(FaceContact(a, k, s[k].value))
  }

  /** Conversely, when face `k` is the least one, the decision is a
      collision at that face's support distance along its normal. */
  lemma LeastFaceQuery(a: Rect, s: seq<Option<Support>>, k: int)
    requires Valid(a) && |s| == 4 && IsLeastFace(s, k)
    ensures AxisQuery(a, s).Collision?
    ensures AxisQuery(a, s).info == FaceContact(a, k, s[k].value)
  {
    var q := AxisQuery(a, s);
    assert !q.NoCollision?;
    assert !q.Throws? by {
      assert !(s[k].value.dist >= InitialBestDistance);
    }
    var k' :| IsLeastFace(s, k') && q.info == FaceContact(a, k', s[k'].value);
    LeastFaceUnique(s, k, k');
  }

  /** `a.findAxisLeastPenetration(b, info)`: the decision above on the
      supports of `b` against the faces of `a`. */
  function FindAxisLeastPenetration(a: Rect, b: Rect): (q: Query)
    requires Valid(a)
    ensures var s := FaceSupports(a, b);
            && (q.NoCollision? <==> exists i :: 0 <= i < 4 && s[i].None?)
            && (q.Throws? <==> forall i :: 0 <= i < 4 ==> s[i].Some? && s[i].value.dist >= InitialBestDistance)
            && (q.Collision? ==> exists k :: IsLeastFace(s, k) && q.info == FaceContact(a, k, s[k].value))
  {
    AxisQuery(a, FaceSupports(a, b))
  }

  /** A collision found by the search lies on the least face: its depth is
      that face's positive support distance, no face of `a` has a smaller
      one, its normal is that face's normal, and pulling the contact point
      back along the normal by the depth gives a vertex of `b`. */
  lemma FindAxisContact(a: Rect, b: Rect, i: nat)
    requires Valid(a) && i < 4 && FindAxisLeastPenetration(a, b).Collision?
    ensures var info := FindAxisLeastPenetration(a, b).info;
            && 0.0 < info.depth < InitialBestDistance
            && FaceSupport(a, b, i).Some? && info.depth <= FaceSupport(a, b, i).value.dist
            && info.normal in a.faceNormal
            && Sub(info.start, Scale(info.normal, info.depth)) in b.vertex
  {
    var s := FaceSupports(a, b);
    var info := FindAxisLeastPenetration(a, b).info;
    var k :| IsLeastFace(s, k) && info == FaceContact(a, k, s[k].value);
    assert s[i] == FaceSupport(a, b, i);
    assert s[k] == FaceSupport(a, b, k);
    SupportFacts(a, b, k);
    AddSubCancel(s[k].value.point, Scale(info.normal, info.depth));
  }

  /** What the support search gives for face `k` of `a`: no support
      exactly when no vertex of `b` lies strictly beyond the face along its
      reversed normal; otherwise a vertex of `b` at a positive distance
      that no vertex of `b` exceeds. */
  lemma SupportFacts(a: Rect, b: Rect, k: nat)
    requires Valid(a) && k < 4
    ensures var r, dir := FaceSupport(a, b, k), Scale(a.faceNormal[k], -1.0);
            && (r.None? <==> forall j :: 0 <= j < |b.vertex| ==> Projection(b.vertex[j], a.vertex[k], dir) <= 0.0)
            && (r.Some? ==>
                  && r.value.point in b.vertex
                  && r.value.dist > 0.0
                  && r.value.dist == Projection(r.value.point, a.vertex[k], dir)
                  && forall j :: 0 <= j < |b.vertex| ==> Projection(b.vertex[j], a.vertex[k], dir) <= r.value.dist)
  {
    var r, dir := FaceSupport(a, b, k), Scale(a.faceNormal[k], -1.0);
    if r.Some? {
      var i :| IsSupportIndex(b.vertex, dir, a.vertex[k], i)
               && r.value == Support(b.vertex[i], Projection(b.vertex[i], a.vertex[k], dir));
    }
  }

  /** How `collidedRectRect` combines the two searches: both must find a
      collision. When the first is strictly shallower its depth and normal
      are kept and its contact point is pulled back along the normal by the
      depth; otherwise the second search's depth and contact point are kept
      with its normal reversed. An exception of either search propagates,
      and the second search does not matter when the first finds nothing. */
  function CombineSearches(q1: Query, q2: Query): (q: Query)
    ensures q.Collision? <==> q1.Collision? && q2.Collision?
    ensures q.Throws? <==> q1.Throws? || (q1.Collision? && q2.Throws?)
    ensures q.Collision? && q1.info.depth < q2.info.depth ==>
              && q.info.depth == q1.info.depth && q.info.normal == q1.info.normal
              && Add(q.info.start, Scale(q.info.normal, q.info.depth)) == q1.info.start
    ensures q.Collision? && q1.info.depth >= q2.info.depth ==>
              && q.info.depth == q2.info.depth && q.info.normal == Scale(q2.info.normal, -1.0)
              && q.info.start == q2.info.start
  {
    match q1
    case NoCollision => NoCollision
    case Throws => Throws
    case Collision(info1) =>
      match q2
      case NoCollision => NoCollision
      case Throws => Throws
      case Collision(info2) =>
        if info1.depth < info2.depth then
          var back := Scale(info1.normal, info1.depth);
          SubAddCancel(info1.start, back);
          Collision(CollisionInfo(info1.depth, info1.normal, Sub(info1.start, back)))
        else
          Collision(CollisionInfo(info2.depth, Scale(info2.normal, -1.0), info2.start))
  }

  /** Combining the two searches in the other order, when neither throws:
      a collision either way, with the same depth, and opposite normals
      when the depths differ. (On equal depths both orders take the second
      search's normal, so they need not be opposite.) */
  lemma CombineSymmetric(q1: Query, q2: Query)
    requires !q1.Throws? && !q2.Throws?
    ensures CombineSearches(q1, q2).Collision? <==> CombineSearches(q2, q1).Collision?
    ensures CombineSearches(q1, q2).Collision? ==>
              CombineSearches(q1, q2).info.depth == CombineSearches(q2, q1).info.depth
    ensures CombineSearches(q1, q2).Collision? && q1.info.depth != q2.info.depth ==>
              CombineSearches(q1, q2).info.normal == Scale(CombineSearches(q2, q1).info.normal, -1.0)
  {
    if q1.Collision? && q2.Collision? && q1.info.depth < q2.info.depth {
      NegateTwice(q1.info.normal);
    }
  }

  /** Every face has support and some support distance is below the
      starting value: the search over these supports finds a collision. */
  predicate Penetrates(s: seq<Option<Support>>) {
    && (forall j :: 0 <= j < |s| ==> s[j].Some?)
    && exists j :: 0 <= j < |s| && s[j].Some? && s[j].value.dist < InitialBestDistance
  }

  /** Every face has support but no distance is below the starting value:
      the search over these supports throws. */
  predicate NoneBelowStart(s: seq<Option<Support>>) {
    forall j :: 0 <= j < |s| ==> s[j].Some? && s[j].value.dist >= InitialBestDistance
  }

  /** The search over the faces of `a` collides exactly when its supports
      penetrate, and throws exactly when none is below the starting value. */
  lemma AxisStatus(a: Rect, b: Rect)
    requires Valid(a)
    ensures var q, s := FindAxisLeastPenetration(a, b), FaceSupports(a, b);
            && (q.Collision? <==> Penetrates(s))
            && (q.Throws? <==> NoneBelowStart(s))
  {}

  /** A collision found by the search has the least support distance over
      the faces of `a`: no face has a smaller one, and some face has it. */
  lemma AxisDepth(a: Rect, b: Rect)
    requires Valid(a)
    ensures var q, s := FindAxisLeastPenetration(a, b), FaceSupports(a, b);
            q.Collision? ==>
              && (forall i :: 0 <= i < 4 ==> s[i].Some? && q.info.depth <= s[i].value.dist)
              && exists i :: 0 <= i < 4 && s[i].Some? && q.info.depth == s[i].value.dist
  {
    var q, s := FindAxisLeastPenetration(a, b), FaceSupports(a, b);
    if q.Collision? {
      var k :| IsLeastFace(s, k) && q.info == FaceContact(a, k, s[k].value);
      assert q.info.depth == s[k].value.dist;
    }
  }

  /** `collidedRectRect(r1, r2, info)`: `r1`'s faces against `r2`, then
      `r2`'s faces against `r1`, combined as above. */
  function CollidedRectRect(r1: Rect, r2: Rect): (q: Query)
    requires Valid(r1) && Valid(r2)
    ensures q == CombineSearches(FindAxisLeastPenetration(r1, r2), FindAxisLeastPenetration(r2, r1))
  {
    CombineSearches(FindAxisLeastPenetration(r1, r2), FindAxisLeastPenetration(r2, r1))
  }

  /** The decision `collidedRectRect` takes, stated through the faces. With
      `s1` the supports of `r2` against `r1`'s faces and `s2` the other way
      round: a collision exactly when both penetrate, and the TypeError
      exactly when `r1`'s search throws, or it penetrates and `r2`'s
      throws. */
  lemma RectRectDecision(r1: Rect, r2: Rect)
    requires Valid(r1) && Valid(r2)
    ensures var q, s1, s2 := CollidedRectRect(r1, r2), FaceSupports(r1, r2), FaceSupports(r2, r1);
            && (q.Collision? <==> Penetrates(s1) && Penetrates(s2))
            && (q.Throws? <==> NoneBelowStart(s1) || (Penetrates(s1) && NoneBelowStart(s2)))
  {
    AxisStatus(r1, r2);
    AxisStatus(r2, r1);
  }

  /** A collision's depth is the support distance of one of the eight faces
      of the two rectangles, and at most all of them. */
  lemma RectRectDepth(r1: Rect, r2: Rect)
    requires Valid(r1) && Valid(r2)
    ensures var q, s1, s2 := CollidedRectRect(r1, r2), FaceSupports(r1, r2), FaceSupports(r2, r1);
            q.Collision? ==>
              && (forall i :: 0 <= i < 4 ==>
                    && s1[i].Some? && q.info.depth <= s1[i].value.dist
                    && s2[i].Some? && q.info.depth <= s2[i].value.dist)
              && exists i :: 0 <= i < 4 && s1[i].Some? && s2[i].Some?
                   && (q.info.depth == s1[i].value.dist || q.info.depth == s2[i].value.dist)
  {
    var q1, q2 := FindAxisLeastPenetration(r1, r2), FindAxisLeastPenetration(r2, r1);
    var q := CollidedRectRect(r1, r2);
    if q.Collision? {
      AxisDepth(r1, r2);
      AxisDepth(r2, r1);
      if q1.info.depth < q2.info.depth {
        assert q.info.depth == q1.info.depth;
      } else {
        assert q.info.depth == q2.info.depth;
      }
    }
  }

  /** A rectangle-rectangle contact: the depth is positive and is the least
      support distance over the faces of both rectangles; the normal is a
      face normal of `r1` or a reversed face normal of `r2`; the contact
      point is a vertex of `r2` when `r1`'s search is strictly shallower, and
      otherwise lies the depth away from a vertex of `r1` against the
      normal. */
  lemma RectRectContact(r1: Rect, r2: Rect, i: nat)
    requires Valid(r1) && Valid(r2) && i < 4 && CollidedRectRect(r1, r2).Collision?
    ensures var info := CollidedRectRect(r1, r2).info;
            && info.depth > 0.0
            && FaceSupport(r1, r2, i).Some? && info.depth <= FaceSupport(r1, r2, i).value.dist
            && FaceSupport(r2, r1, i).Some? && info.depth <= FaceSupport(r2, r1, i).value.dist
            && (info.normal in r1.faceNormal || Scale(info.normal, -1.0) in r2.faceNormal)
            && (FindAxisLeastPenetration(r1, r2).info.depth < FindAxisLeastPenetration(r2, r1).info.depth ==>
                  info.start in r2.vertex)
            && (FindAxisLeastPenetration(r1, r2).info.depth >= FindAxisLeastPenetration(r2, r1).info.depth ==>
                  Add(info.start, Scale(info.normal, info.depth)) in r1.vertex)
  {
    var q1, q2 := FindAxisLeastPenetration(r1, r2), FindAxisLeastPenetration(r2, r1);
    var info := CollidedRectRect(r1, r2).info;
    FindAxisContact(r1, r2, i);
    FindAxisContact(r2, r1, i);
    if q1.info.depth < q2.info.depth {
      AddSubCancel(info.start, Scale(info.normal, info.depth));
    } else {
      NegateTwice(q2.info.normal);
      AddReversed(info.start, q2.info.normal, info.depth);
    }
  }

  /** Swapping the two rectangles, when neither search throws: a collision is
      found either way, with the same depth; when the two searches' depths
      differ, the normals are opposite. */
  lemma RectRectSymmetric(r1: Rect, r2: Rect)
    requires Valid(r1) && Valid(r2)
    requires !FindAxisLeastPenetration(r1, r2).Throws? && !FindAxisLeastPenetration(r2, r1).Throws?
    ensures CollidedRectRect(r1, r2).Collision? <==> CollidedRectRect(r2, r1).Collision?
    ensures CollidedRectRect(r1, r2).Collision? ==>
              CollidedRectRect(r1, r2).info.depth == CollidedRectRect(r2, r1).info.depth
    ensures CollidedRectRect(r1, r2).Collision?
            && FindAxisLeastPenetration(r1, r2).info.depth != FindAxisLeastPenetration(r2, r1).info.depth ==>
              CollidedRectRect(r1, r2).info.normal == Scale(CollidedRectRect(r2, r1).info.normal, -1.0)
  {
    CombineSymmetric(FindAxisLeastPenetration(r1, r2), FindAxisLeastPenetration(r2, r1));
  }

  /** On equal depths both orders reverse the second search's normal, so
      the two results have opposite normals exactly when the two searches'
      normals were opposite to begin with. */
  lemma CombineTied(q1: Query, q2: Query)
    requires q1.Collision? && q2.Collision? && q1.info.depth == q2.info.depth
    ensures CombineSearches(q1, q2).info.normal == Scale(q2.info.normal, -1.0)
    ensures CombineSearches(q2, q1).info.normal == Scale(q1.info.normal, -1.0)
    ensures CombineSearches(q1, q2).info.normal == Scale(CombineSearches(q2, q1).info.normal, -1.0)
            <==> q1.info.normal == Scale(q2.info.normal, -1.0)
  {
    NegateTwice(q1.info.normal);
  }
}
