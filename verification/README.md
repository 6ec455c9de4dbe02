# Rectangle collision core of a 2D rigid-body engine

This project models the narrow-phase collision core of a small TypeScript 2D
physics engine, written in Dafny. It covers:

- the rectangle shape (`Rectangle`): construction, `rotate`, `move`,
  `updateInertia`, `findSupportPoint`, `findAxisLeastPenetration`,
  `collidedRectRect`, `collidedRectCirc` and `collisionTest`;
- the rigid-shape base class (`RigidShape`) it extends.

It proves what those routines guarantee about their results.

Modules, in dependency order:

| module | file | models |
|---|---|---|
| `Wrappers` | wrappers.dfy | `Option`, for `null`-able values |
| `Vectors` | vectors.dfy | 2D vectors over exact reals. The vector type's `normalize`, its two length methods (`length`, used by the circle test, and `lengthCalculation`, used by `boundTest`), `Math.sqrt` and `rotate` are function values in a `VecOps` record. `Sound` / `RotationInvertible` say what a faithful implementation satisfies |
| `Rigid` | rigid.dfy | `RigidShape`: self-registration, `boundTest`, the empty hooks |
| `Support` | support.dfy | `findSupportPoint` and its result (`SupportStruct`) |
| `Collision` | collision.dfy | `CollisionInfo`, and a query outcome: no collision, a collision with its info, or the `TypeError` the rectangle search can throw |
| `Rectangle` | rectangle.dfy | the rectangle: constructor, normals, inertia, `move`, `rotate` |
| `RectRect` | rect_rect.dfy | `findAxisLeastPenetration` and `collidedRectRect` (separating axis test) |
| `RectRectExamples` | rect_rect_examples.dfy | a worked overlap: two 4 x 4 squares side by side |
| `RectCircle`, `RectCircleExamples` | rect_circle.dfy | `collidedRectCirc`, and a worked touching-circle case |
| `Dispatch` | dispatch.dfy | `collisionTest` |
| `StaleSupport` | stale_support.dfy | `findAxisLeastPenetration` exactly as written (see Findings) |

Every routine is a pure function. It returns a new value where the source
mutates `this`, and a `Query` where the source returns a status and writes a
`CollisionInfo`. The "best distance" sentinels are kept literally:

- `-9999999` for the support search;
- `999999` for the face search;
- `-99999` for the circle's nearest face.

When every face's support distance is at least `999999`,
`findAxisLeastPenetration` indexes `mFaceNormal[null]` and throws. The model
keeps this as `Query.Throws`.

### Behaviour worth noting

- **Touching circle.** A circle that only touches a face is a miss, because
  the face-region test at
  lib/src/module/rigid/engine.shape.rectangle.ts:236 is strict
  (`bestDistance < radius`). `RectCircleExamples.CircleBesideLeftFace`
  proves that a circle one unit from a face collides exactly when its
  radius exceeds 1.
- **Swapped rectangles.** When the two axis searches report equal depths,
  both orders reverse the second search's normal
  (engine.shape.rectangle.ts:149-155). So the normals of `A.collisionTest(B)`
  and `B.collisionTest(A)` are opposite whenever the depths differ
  (`RectRect.RectRectSymmetric`). On a tie they are opposite only when the
  two searches' normals were (`RectRect.CombineTied`).
- **`boundTest`.** It compares the centre distance against the sum of the two
  shapes' angles, not their radii (engine.rigid.ts:22-25). It is kept as
  written (`Rigid.BoundTest`). The base constructor zeroes the angle
  (engine.rigid.ts:12), so two fresh shapes pass only when their centres
  coincide (`Rigid.BoundTestOfFreshShapes`).

## Model

| member | source | states |
|---|---|---|
| Rigid.Register | lib/src/module/rigid/engine.rigid.ts:13 | registering appends the shape at the end of the collection and leaves every earlier entry in place |
| Rigid.RegisterAllAppends | lib/src/module/rigid/engine.rigid.ts:9-14 | constructing shapes one after another lists them in the collection in construction order, after the entries already there |
| Rigid.NewRigidShape | lib/src/module/rigid/engine.rigid.ts:9-14 | the base constructor keeps the centre, zeroes radius and angle, and appends the object being built (the finished subclass object, as the source pushes `this`) to the collection it was given |
| Rigid.ConstructorIgnoresAngle | lib/src/module/rigid/engine.rigid.ts:12 | the angle passed to the base constructor has no effect on the shape or the collection |
| Rigid.BoundTest | lib/src/module/rigid/engine.rigid.ts:20-31 | `boundTest` reports a possible overlap exactly when the centre distance is at most the sum of the two angles |
| Rigid.BoundTestSquared | lib/src/module/rigid/engine.rigid.ts:20-31 | with a true `lengthCalculation`, `boundTest` holds iff the angle sum is non-negative and the squared centre distance is at most its square |
| Rigid.BoundTestOfFreshShapes | lib/src/module/rigid/engine.rigid.ts:9-31 | two freshly constructed shapes pass `boundTest` iff their centres coincide, since construction zeroes both angles |
| Rigid.Move | lib/src/module/rigid/engine.rigid.ts:16-18 | the base `move` hook leaves the shape as it is |
| Rigid.Rotate | lib/src/module/rigid/engine.rigid.ts:37-39 | the base `rotate` hook leaves the shape as it is |
| Rigid.Render | lib/src/module/rigid/engine.rigid.ts:33-35 | the base `render` hook leaves the shape as it is |
| Rigid.Update | lib/src/module/rigid/engine.rigid.ts:41-45 | the base `update` hook, whose body is commented out, leaves the shape as it is |
| Support.FindSupportPoint | lib/src/module/rigid/engine.shape.rectangle.ts:107-127 | no support iff no vertex projects strictly beyond the reference point; otherwise the support is the first vertex of greatest projection, with that projection as its positive distance, and no vertex projects further |
| Support.SupportIndexUnique | lib/src/module/rigid/engine.shape.rectangle.ts:122 | the strict comparison makes the support vertex unique: the first of the furthest vertices |
| Support.SupportDistance | lib/src/module/rigid/engine.shape.rectangle.ts:107-127 | conversely, if some vertex projects to a positive m and none further, the search finds a support at distance m |
| Collision.WriteBack | lib/src/module/rigid/engine.shape.rectangle.ts:98-104 | the returned status is true exactly on a collision; only a collision writes the caller's info, which a miss leaves untouched; a thrown search propagates |
| Rectangle.UpdateInertia | lib/src/module/rigid/engine.shape.rectangle.ts:288-300 | zero inverse mass gives inertia 0; otherwise the stored value is the reciprocal of `mass * (w^2 + h^2) / 12`, and non-finite exactly when w^2 + h^2 is 0 |
| Rectangle.InertiaClosedForm | lib/src/module/rigid/engine.shape.rectangle.ts:288-300 | the stored reciprocal inertia equals `12 * invMass / (w^2 + h^2)` |
| Rectangle.NewRect | lib/src/module/rigid/engine.shape.rectangle.ts:17-46 | the constructor places the four corners at centre ± half extents (top-left, top-right, bottom-right, bottom-left), gives normals consistent with them, keeps width and height, computes the bounding radius, computes inertia from an inverse-mass parameter (the source never stores the mass and never assigns `mInvMass`), and registers the rectangle |
| Rectangle.NewRectNormals | lib/src/module/rigid/engine.shape.rectangle.ts:34-43 | with a true `normalize` and positive sides, the four face normals are the outward axis directions: up, right, down, left |
| Rectangle.BoundRadiusIsHalfDiagonal | lib/src/module/rigid/engine.shape.rectangle.ts:24 | with a true `Math.sqrt`, the bounding radius `Math.sqrt(w^2 + h^2) / 2` is non-negative and twice it squared is w^2 + h^2: half the diagonal |
| Rectangle.Move | lib/src/module/rigid/engine.shape.rectangle.ts:270-276 | `move(v)` translates every vertex and the centre by v and changes nothing else, normals included |
| Rectangle.MoveKeepsConsistent | lib/src/module/rigid/engine.shape.rectangle.ts:270-276 | after a move the unchanged normals still agree with the translated vertices |
| Rectangle.MoveRoundTrip | lib/src/module/rigid/engine.shape.rectangle.ts:270-276 | moving by v and then by -v restores the rectangle |
| Rectangle.Rotate | lib/src/module/rigid/engine.shape.rectangle.ts:48-63 | `rotate(angle)` adds to the angle, rotates every vertex about the centre, and recomputes normals consistent with the rotated vertices; nothing else changes |
| Rectangle.RotateRoundTrip | lib/src/module/rigid/engine.shape.rectangle.ts:48-63 | for an invertible rotation, rotating by an angle and back restores a consistent rectangle |
| RectRect.SupportFacts | lib/src/module/rigid/engine.shape.rectangle.ts:75-84 | face k of a has no support iff no vertex of b lies strictly beyond it along the reversed face normal; otherwise the support is a vertex of b at a positive distance, equal to its own projection, that no vertex of b exceeds |
| RectRect.ScanAxes | lib/src/module/rigid/engine.shape.rectangle.ts:75-94 | the face loop stops without support iff some face has none; it keeps no face iff every distance is at least 999999; a kept face is the first with the least distance |
| RectRect.LeastFaceUnique | lib/src/module/rigid/engine.shape.rectangle.ts:88 | the strict comparison makes the least face unique: the first of the shallowest |
| RectRect.AxisQuery | lib/src/module/rigid/engine.shape.rectangle.ts:65-105 | no collision iff some face lacks support; a throw iff no distance is below 999999; otherwise the least face's distance, normal and the support vertex pushed out along the normal |
| RectRect.LeastFaceQuery | lib/src/module/rigid/engine.shape.rectangle.ts:65-105 | conversely, whenever face k is the least face, the search reports a collision on face k |
| RectRect.FindAxisLeastPenetration | lib/src/module/rigid/engine.shape.rectangle.ts:65-105 | the same three-way decision, on the other rectangle's supports against this rectangle's faces |
| RectRect.FindAxisContact | lib/src/module/rigid/engine.shape.rectangle.ts:65-105 | a found depth lies strictly between 0 and 999999 and is at most every face's support distance; the normal is one of this rectangle's normals; the contact point pulled back by the depth is a vertex of the other |
| RectRect.CombineSearches | lib/src/module/rigid/engine.shape.rectangle.ts:129-159 | a collision iff both searches collide; a throw from either propagates, the second only if the first collided; a strictly shallower first search wins with its contact pulled back; otherwise the second's depth and contact win with the normal reversed |
| RectRect.CombineSymmetric | lib/src/module/rigid/engine.shape.rectangle.ts:136-158 | combining in either order gives the same collision status and depth, and opposite normals when the depths differ |
| RectRect.CombineTied | lib/src/module/rigid/engine.shape.rectangle.ts:149-155 | on equal depths both orders reverse the second search's normal, so the two results are opposite iff the two searches' normals were |
| RectRect.AxisStatus | lib/src/module/rigid/engine.shape.rectangle.ts:65-105 | one rectangle's search collides iff every face has support and some distance is below 999999, and throws iff every face has support and none is below 999999 |
| RectRect.AxisDepth | lib/src/module/rigid/engine.shape.rectangle.ts:65-105 | a collision found by one rectangle's search has a depth equal to some face's support distance and at most every face's |
| RectRect.RectRectDecision | lib/src/module/rigid/engine.shape.rectangle.ts:129-159 | `collidedRectRect` collides iff every face of both rectangles has support and each side has a distance below 999999; it throws iff r1's search throws, or r1's collides and r2's throws |
| RectRect.RectRectDepth | lib/src/module/rigid/engine.shape.rectangle.ts:129-159 | a collision's depth is one of the eight faces' support distances and at most all of them |
| RectRect.RectRectContact | lib/src/module/rigid/engine.shape.rectangle.ts:129-159 | a rectangle contact has positive depth, at most every face's support distance in both rectangles; its normal is a normal of r1 or a reversed normal of r2; its point is a vertex of r2, or is one depth from a vertex of r1 |
| RectRect.RectRectSymmetric | lib/src/module/rigid/engine.shape.rectangle.ts:129-159 | when neither search throws, swapping the rectangles keeps the status and depth, and reverses the normal when the searches' depths differ |
| RectRectExamples.SquareDistances | lib/src/module/rigid/engine.shape.rectangle.ts:65-91 | for 4 x 4 squares at (xa, 0) and (xb, 0) less than 4 apart, the support distances of the second against the first's four faces are 4, 4 - (xb - xa), 4 and 4 + (xb - xa) |
| RectRectExamples.SearchRightward | lib/src/module/rigid/engine.shape.rectangle.ts:65-105 | with the second square to the right and overlapping, the first's search collides on its right face with depth 4 - (xb - xa) |
| RectRectExamples.SideBySide | lib/src/module/rigid/engine.shape.rectangle.ts:129-159 | two overlapping side-by-side squares collide in either order with depth 4 - (xb - xa), normal (1, 0) from the left square and (-1, 0) from the right one; the tie goes to the second search's normal reversed |
| RectRectExamples.ConstructedOverlap | lib/src/module/rigid/engine.shape.rectangle.ts:17-159 | the constructor's 4 x 4 squares at (0, 0) and (3, 0) collide with depth 1 and normal (1, 0), and with normal (-1, 0) when swapped |
| RectCircle.ScanFaces | lib/src/module/rigid/engine.shape.rectangle.ts:167-183 | the face loop stops at the first face the centre lies strictly beyond; otherwise it keeps the first face of greatest distance, or face 0 if none rises above -99999 |
| RectCircle.NearestFace | lib/src/module/rigid/engine.shape.rectangle.ts:167-183 | the centre is inside iff no face has it strictly beyond; outside, the face kept is the first with the centre beyond it, at that positive distance |
| RectCircle.RegionOf | lib/src/module/rigid/engine.shape.rectangle.ts:186-247 | the four regions: inside; the start-corner region (negative dot with the face vector); the end-corner region; the face region, where both corner dots are non-negative |
| RectCircle.CornerQuery | lib/src/module/rigid/engine.shape.rectangle.ts:198-212 | a corner collides iff its distance to the centre is at most the radius; depth is radius minus that distance, normal is the normalised offset, contact is the centre moved back by the radius |
| RectCircle.FaceQueryInfo | lib/src/module/rigid/engine.shape.rectangle.ts:236-242 | the face contact's depth and face distance sum to the radius; the normal is the face normal; the contact is the centre moved back by the radius |
| RectCircle.CollidedRectCirc | lib/src/module/rigid/engine.shape.rectangle.ts:161-258 | never throws; inside always collides on the nearest face; corner regions decide by their corner; beside a face it collides iff the face distance is below the radius |
| RectCircle.InsideCollides | lib/src/module/rigid/engine.shape.rectangle.ts:248-256 | a centre inside collides with depth at least the radius, on a face no other face is nearer, or on face 0 with the sentinel distance |
| RectCircle.CornerContact | lib/src/module/rigid/engine.shape.rectangle.ts:198-212 | with a true `length` and `normalize`, a corner collides iff radius >= 0 and the squared offset is at most radius^2; the depth is then non-negative and the normal is the unit vector towards the centre |
| RectCircle.CornerOffsetNonZero | lib/src/module/rigid/engine.shape.rectangle.ts:191-221 | in either corner region the corner-to-centre offset is not zero, so its normalisation is defined |
| RectCircle.FaceRegionContact | lib/src/module/rigid/engine.shape.rectangle.ts:234-246 | beside a face the circle collides iff the face distance is below the radius, with a positive depth along that face's normal |
| RectCircleExamples.BoxShape | lib/src/module/rigid/engine.shape.rectangle.ts:17-46 | a 4 x 4 rectangle at (3, 0) has corners (1,-2), (5,-2), (5,2), (1,2) and the axis normals |
| RectCircleExamples.LeftFaceRegion | lib/src/module/rigid/engine.shape.rectangle.ts:167-247 | the origin lies outside that box beside its left face, one unit away |
| RectCircleExamples.CircleBesideLeftFace | lib/src/module/rigid/engine.shape.rectangle.ts:234-246 | a circle at the origin collides with that box iff its radius exceeds 1 (touching is a miss), with depth radius - 1, normal (-1, 0) and contact (radius, 0) |
| Dispatch.TestQuery | lib/src/module/rigid/engine.shape.rectangle.ts:260-268 | a circle goes to the rectangle-circle test and never throws; a rectangle goes to the rectangle-rectangle test |
| Dispatch.CollisionTest | lib/src/module/rigid/engine.shape.rectangle.ts:260-268 | against a circle it always returns; it throws iff the dispatched query throws; the status is true exactly on a collision; on a miss the caller's info is unchanged |
| Dispatch.CollisionTestSymmetric | lib/src/module/rigid/engine.shape.rectangle.ts:260-268 | two rectangles tested in either order, when neither search throws, agree on status and depth |
| StaleSupport.FindAxisAsWritten | lib/src/module/rigid/engine.shape.rectangle.ts:65-105 | as written, the result depends only on the stale support in `this.tmpSupport`: no collision iff it is null, a throw iff its distance is at least 999999, otherwise a contact on face 0 |
| StaleSupport.ConstantSupportsPickFirstFace | lib/src/module/rigid/engine.shape.rectangle.ts:88-92 | when every face reads the same support, face 0 is the one kept |
| StaleSupport.CollidedAsWritten | lib/src/module/rigid/engine.shape.rectangle.ts:129-159 | as written, a null stale support in the first rectangle means no collision, wherever the rectangles are |
| StaleSupport.AsWrittenIgnoresOther | lib/src/module/rigid/engine.shape.rectangle.ts:84-91 | as written, the search's outcome is the same whatever the other rectangle is |
| StaleSupport.FarSquaresSeparated | lib/src/module/rigid/engine.shape.rectangle.ts:65-159 | two 2 x 2 squares ten units apart are separated by the first's right face, so the intended test reports no collision |
| StaleSupport.SquareShape | lib/src/module/rigid/engine.shape.rectangle.ts:17-46 | with a true `normalize`, the constructor's 2 x 2 square at (x, 0) has corners x ± 1, ± 1 and the axis normals |
| StaleSupport.ConstructedFarSquares | lib/src/module/rigid/engine.shape.rectangle.ts:84-91 | for the constructor's 2 x 2 squares at (0, 0) and (10, 0), a support stored in the first before the call makes the as-written test report a collision, while the intended test reports none |
| StaleSupport.FarSquaresCounterexample | lib/src/module/rigid/engine.shape.rectangle.ts:84-91 | for those far-apart squares, a support stored in the first before the call makes the as-written test report a collision, while the intended test reports none |

## Left out

- Drawing (`draw`) and every `console.log`: output only, with no effect on the model's state.
- Friction and restitution: the constructor accepts them but nothing in the core reads them.
- Floating point: all arithmetic is over exact reals, so rounding, `NaN` and infinities are not modelled. The one non-finite value the core can produce, inertia when `w^2 + h^2 == 0`, is `None`.
- The vector type's `normalize`, `length`, `lengthCalculation` and `rotate`, and `Math.sqrt`: these are parameters (`VecOps`). The vector class is not part of this model, so `length` and `lengthCalculation` are kept as two separate functions, each assumed to be the Euclidean norm. Only the properties in `Vectors.Sound` and `Vectors.RotationInvertible` are assumed, and only by the lemmas that state them in `requires`.
- `SupportStruct` and `CollisionInfo`: these classes are not part of this model beyond the fields the core reads and writes (`Support.Support`, `Collision.CollisionInfo`).
- The circle shape: it is not part of this model beyond its centre and radius.
- Other shape kinds: only rectangles and circles are modelled. In the source, any shape whose `mType` is not 'Circle' goes to `collidedRectRect` (engine.shape.rectangle.ts:265), and a bare `RigidShape`, having no vertices or normals, would throw there.
- Aliasing through the registry: the collection holds a snapshot of the rectangle at construction, so later moves of the same object are not reflected there.
- Rectangle.NewRect: the `super(center, width, height, mass, friction, restitution)` call passes `width` as the base angle and `height` as the shape collection. Pushing onto `height.collection` would fail. The model passes `width` as the angle, which the base constructor discards, and registers into a collection given as a parameter.
- Rectangle.NewRect: `mInvMass` is never assigned in the source before `updateInertia` reads it. The model takes the inverse mass as a parameter.
- `mCenter` and `mAngle`: the rectangle reads them, but nothing assigns them. The model uses the base shape's `center` and `angle` for both.
- Rigid.BoundTest: on rectangles it differs from the source after a move or rotate. In the source, `move` and `rotate` write only `mCenter` and `mAngle`, never `center` and `angle`, so `boundTest` between rectangles always compares the construction-time centres against an angle sum of 0 + 0. In the model, `BoundTest` on a moved or rotated rectangle's base sees the new centre and the accumulated angle.
- Rectangle.Move: as written, `move` throws at `this.mCenter.add(v)` (engine.shape.rectangle.ts:274), after the vertices were already translated. The model does not throw; it returns the translated rectangle with its base centre moved.
- Rectangle.Rotate: as written, `this.mAngle += angle` makes the angle `NaN`, and the pivot passed to the vector type's `rotate` is the unassigned `mCenter`. What that call does with it is not part of this model. The model rotates about the base centre and adds to the base angle.
- The module-level scratch objects `collisionInfoR1` and `collisionInfoR2`: they are shared between calls but overwritten before every read, so the model keeps each search's info as a local value.
- How many support searches run: the model computes all four up front, while the source stops after the first face without support. A search only writes the other rectangle's `tmpSupport`, which the intended model never reads, so the outcome is the same. `RectRect.ScanAxes` keeps the early exit itself.
- StaleSupport.FindAxisAsWritten: models only two distinct rectangles. When a rectangle is tested against itself, the search does write `this.tmpSupport`, and that case is not modelled.
- Engine configuration, the engine loop, models/engine.ts and the webpack build: outside the collision core.

## Findings

| source | as written | input that shows it | evidently intended | confidence | as-written member | corrected member |
|---|---|---|---|---|---|---|
| lib/src/module/rigid/engine.shape.rectangle.ts:84-91 | `otherRect.findSupportPoint(...)` stores its result in `otherRect.tmpSupport`, but the loop reads `this.tmpSupport`, which the search never writes; every face reads the same stale value | 2 x 2 squares centred at (0, 0) and (10, 0), where the first square's `tmpSupport` holds a support of distance below 999999 from an earlier call: the as-written test reports a collision. This assumes the separate `super` defect is fixed: as written, the constructor throws at engine.rigid.ts:13, because the `super` call at engine.shape.rectangle.ts:18 passes `height` as the collection (see `Rectangle.NewRect` under Left out), and `ConstructedFarSquares` builds the squares with `NewRect`, which registers into a real collection | read the support the search just computed (`otherRect.tmpSupport`), so a face without support separates the rectangles | not executed | StaleSupport.ConstructedFarSquares | RectRect.FindAxisLeastPenetration |
