/** The result of one collision query (`CollisionInfo`, whose class is not
    part of this model beyond the three fields the core writes). */
module Collision {
  import opened Vectors

  /** Penetration depth, contact normal and contact point (`mStart`). */
  datatype CollisionInfo = CollisionInfo(depth: real, normal: Vec, start: Vec)

  /** What a collision routine produces: no collision (the caller's info is
      left alone), a collision with the info it writes, or the TypeError the
      rectangle-vs-rectangle search throws when its best face index is still
      `null` at the end of the scan. */
  datatype Query = NoCollision | Collision(info: CollisionInfo) | Throws

  /** What the caller observes: the returned status and the state of the
      info object it passed in, or an exception. */
  datatype Outcome = Returned(status: bool, info: CollisionInfo) | Thrown

  /** Apply a query to the caller's info object: only a collision writes it. */
  function WriteBack(q: Query, info: CollisionInfo): (o: Outcome)
    ensures o.Thrown? <==> q.Throws?
    ensures o.Returned? ==> (o.status <==> q.Collision?)
    ensures o.Returned? && !o.status ==> o.info == info
    ensures o.Returned? && o.status ==> o.info == q.info
  {
    match q
    case NoCollision => Returned(false, info)
    case Collision(written) => Returned(true, written)
    case Throws => Thrown
  }
}
