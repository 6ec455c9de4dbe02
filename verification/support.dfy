/** The support-point search of a rectangle (`findSupportPoint`,
    lib/src/module/rigid/engine.shape.rectangle.ts:107-127): among the shape's
    vertices, the one lying furthest along a direction beyond a reference
    point, provided it lies strictly beyond it. */
module Support {
  import opened Wrappers
  import opened Vectors

  /** `SupportStruct`: the support vertex and its distance along the direction. */
  datatype Support = Support(point: Vec, dist: real)

  /** The starting value of the best distance. Every vertex the search accepts
      has a positive projection, so this value never decides anything. */
  const InitialSupportDist: real := -9999999.0

  /** Signed distance of `v` beyond `ptOnEdge` along `dir`. */
  function Projection(v: Vec, ptOnEdge: Vec, dir: Vec): real {
    Dot(Sub(v, ptOnEdge), dir)
  }

  /** Vertex `k` is THE support vertex: its projection is positive, no vertex
      projects further, and every earlier vertex projects strictly less (the
      first vertex wins ties). */
  predicate IsSupportIndex(vs: seq<Vec>, dir: Vec, ptOnEdge: Vec, k: int) {
    && 0 <= k < |vs|
    && Projection(vs[k], ptOnEdge, dir) > 0.0
    && (forall j :: 0 <= j < |vs| ==> Projection(vs[j], ptOnEdge, dir) <= Projection(vs[k], ptOnEdge, dir))
    && (forall j :: 0 <= j < k ==> Projection(vs[j], ptOnEdge, dir) < Projection(vs[k], ptOnEdge, dir))
  }

  /** At most one vertex is the support vertex. */
  lemma SupportIndexUnique(vs: seq<Vec>, dir: Vec, ptOnEdge: Vec, k1: int, k2: int)
    requires IsSupportIndex(vs, dir, ptOnEdge, k1) && IsSupportIndex(vs, dir, ptOnEdge, k2)
    ensures k1 == k2
  {}

  /** The loop of `findSupportPoint` from vertex `i` on, with the best index
      found so far and its distance. */
  function ScanSupport(vs: seq<Vec>, dir: Vec, ptOnEdge: Vec, i: nat, best: Option<nat>, bestDist: real)
    : (r: Option<nat>)
    requires i <= |vs|
    requires best.None? ==>
               && bestDist == InitialSupportDist
               && forall j :: 0 <= j < i ==> Projection(vs[j], ptOnEdge, dir) <= 0.0
    requires best.Some? ==>
               && best.value < i
               && bestDist == Projection(vs[best.value], ptOnEdge, dir)
               && bestDist > 0.0
               && (forall j :: 0 <= j < i ==> Projection(vs[j], ptOnEdge, dir) <= bestDist)
               && (forall j :: 0 <= j < best.value ==> Projection(vs[j], ptOnEdge, dir) < bestDist)
    ensures r.None? <==> forall j :: 0 <= j < |vs| ==> Projection(vs[j], ptOnEdge, dir) <= 0.0
    ensures r.Some? ==> IsSupportIndex(vs, dir, ptOnEdge, r.value)
    decreases |vs| - i
  {
    if i == |vs| then
      best
    else
      var projection := Projection(vs[i], ptOnEdge, dir);
      if projection > 0.0 && projection > bestDist then
        ScanSupport(vs, dir, ptOnEdge, i + 1, Some(i), projection)
      else
        ScanSupport(vs, dir, ptOnEdge, i + 1, best, bestDist)
  }

  /** `findSupportPoint(dir, ptOnEdge)` over the vertices `vs`: no support
      exactly when no vertex projects strictly beyond the reference point;
      otherwise the support vertex and its distance. */
  function FindSupportPoint(vs: seq<Vec>, dir: Vec, ptOnEdge: Vec): (r: Option<Support>)
    ensures r.None? <==> forall j :: 0 <= j < |vs| ==> Projection(vs[j], ptOnEdge, dir) <= 0.0
    ensures r.Some? ==>
              exists k :: IsSupportIndex(vs, dir, ptOnEdge, k) && r.value == Support(vs[k], Projection(vs[k], ptOnEdge, dir))
    ensures r.Some? ==> r.value.point in vs && r.value.dist > 0.0
    ensures r.Some? ==> forall j :: 0 <= j < |vs| ==> Projection(vs[j], ptOnEdge, dir) <= r.value.dist
  {
    match ScanSupport(vs, dir, ptOnEdge, 0, None, InitialSupportDist)
    case None => None
    case Some(k) => Some(Support(vs[k], Projection(vs[k], ptOnEdge, dir)))
  }

  /** The support distance is the greatest projection: when some vertex
      projects to `m > 0` and none further, the search finds a support at
      distance `m`. */
  lemma SupportDistance(vs: seq<Vec>, dir: Vec, ptOnEdge: Vec, j: int, m: real)
    requires 0 <= j < |vs| && Projection(vs[j], ptOnEdge, dir) == m && m > 0.0
    requires forall i :: 0 <= i < |vs| ==> Projection(vs[i], ptOnEdge, dir) <= m
    ensures FindSupportPoint(vs, dir, ptOnEdge).Some?
    ensures FindSupportPoint(vs, dir, ptOnEdge).value.dist == m
  {
    var r := FindSupportPoint(vs, dir, ptOnEdge);
    assert !(Projection(vs[j], ptOnEdge, dir) <= 0.0);
    var k :| IsSupportIndex(vs, dir, ptOnEdge, k) && r.value == Support(vs[k], Projection(vs[k], ptOnEdge, dir));
    assert Projection(vs[j], ptOnEdge, dir) <= Projection(vs[k], ptOnEdge, dir);
  }
}
