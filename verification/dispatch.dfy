/** `collisionTest` of the rectangle
    (lib/src/module/rigid/engine.shape.rectangle.ts:260-268): a circle is
    handed to the rectangle-circle routine, anything else is treated as a
    rectangle, and the caller's info object is written only on a hit. */
module Dispatch {
  import opened Vectors
  import opened Collision
  import opened Rectangle
  import opened RectRect
  import opened RectCircle

  /** Every shape a rectangle can meet here has four vertices and four
      normals when it is a rectangle. */
  predicate Testable(b: Body) {
    b.RectBody? ==> Valid(b.rect)
  }

  /** The query `self.collisionTest(other, info)` runs, by the other
      shape's kind. */
  function TestQuery(self: Rect, other: Body, ops: VecOps): (q: Query)
    requires Valid(self) && Testable(other)
    ensures other.CircleBody? ==> q == CollidedRectCirc(self, other.circle, ops) && !q.Throws?
    ensures other.RectBody? ==> q == CollidedRectRect(self, other.rect)
  {
    match other
    case CircleBody(circ) => CollidedRectCirc(self, circ, ops)
    case RectBody(rect) => CollidedRectRect(self, rect)
  }

  /** `self.collisionTest(other, info)`: the returned status and the state of
      `info` afterwards. A circle never makes it throw; the status is true
      exactly on a collision; on a miss `info` is left as it was. */
  function CollisionTest(self: Rect, other: Body, info: CollisionInfo, ops: VecOps): (o: Outcome)
    requires Valid(self) && Testable(other)
    ensures other.CircleBody? ==> o.Returned?
    ensures o.Thrown? <==> TestQuery(self, other, ops).Throws?
    ensures o.Returned? ==> (o.status <==> TestQuery(self, other, ops).Collision?)
    ensures o.Returned? && !o.status ==> o.info == info
    ensures o.Returned? && o.status ==> o.info == TestQuery(self, other, ops).info
  {
    WriteBack(TestQuery(self, other, ops), info)
  }

  /** Two rectangles tested in either order give the same status and the
      same depth, unless one of the face searches throws. */
  lemma CollisionTestSymmetric(a: Rect, b: Rect, info: CollisionInfo, ops: VecOps)
    requires Valid(a) && Valid(b)
    requires !FindAxisLeastPenetration(a, b).Throws? && !FindAxisLeastPenetration(b, a).Throws?
    ensures CollisionTest(a, RectBody(b), info, ops).Returned?
    ensures CollisionTest(b, RectBody(a), info, ops).Returned?
    ensures CollisionTest(a, RectBody(b), info, ops).status == CollisionTest(b, RectBody(a), info, ops).status
    ensures CollisionTest(a, RectBody(b), info, ops).info.depth == CollisionTest(b, RectBody(a), info, ops).info.depth
  {
    RectRectSymmetric(a, b);
  }
}
