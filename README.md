# PhysicsEngine core, modelled in Dafny

This project models the discrete logic of the DistinctVision PhysicsEngine, a
rigid-body engine written in C++, over Dafny's `real` numbers. It covers:

- the vector, rotation, bounds and material primitives;
- the shapes (sphere, capsule, hull) and their bounds trees;
- the rigid bodies, their impulses and collision-group merges;
- the contact container with its warm starting;
- the sequential-impulse solver and the shock-propagation pass;
- the world step: body registration, sleep counters, pair enumeration and
  the dual-tree descent of the broad phase;
- the narrow phase: the dispatch by shape kind, the sphere and capsule
  contacts, the hull gates, the reference face and the polygon clipping;
- the discrete side of GJK (support, sign and null tests, nearest points on
  a segment and a triangle) and the face and vertex bookkeeping of EPA and
  of the QuickHull builder.

Floating-point rounding is not modelled. `sqrt` and `rotateAroundVector` are
function parameters, or a caller supplies a length together with the fact
that it squares to the squared length.

Files and modules:

| file | module | engine source |
|---|---|---|
| settings.dfy | Settings | constants of Settings.h and Vector2.h |
| vector3.dfy | Vector3Math | VectorMath/Vector3.h, Vector3.cpp |
| vector2.dfy | Vector2Math | VectorMath/Vector2.h, Vector2.cpp |
| rotation.dfy | Rotation | VectorMath/RotationMatrix.h (class RotationMatrix) |
| material.dfy | Materials | Bodies/Material.cpp |
| bounds.dfy | BoundsBox | struct Bounds of Bodies/Shape.h |
| boundstree.dfy | BoundsTrees | Bodies/BoundsTrees.cpp (class BoundsTree) |
| bodies.dfy | Bodies | Bodies/Shape.cpp, Sphere.cpp, Capsule.cpp, Hull.cpp, Body.cpp (classes Shape, Body) |
| broadphase.dfy | BroadPhase | the tree descent of PhysicsWorld.cpp |
| contacts.dfy | Contacts | Dynamic/ContactTypes.h, ContactsContainer.cpp (class ContactsContainer) |
| solver.dfy | Solvers | Dynamic/Solver.cpp (class Solver) |
| shock.dfy | ShockPropagation | Dynamic/ShockPropagationSolver.cpp (class ShockPropagationSolver) |
| world.dfy | Worlds | PhysicsWorld.cpp (class PhysicsWorld) |
| narrow.dfy | Narrow | CollisionDetected/CollisionDetected.cpp, and the dispatch of PhysicsWorld.cpp:226-292 |
| gjk.dfy | Gjk | CollisionDetected/GJK.cpp |
| faces.dfy | Faces | the face records of CollisionDetected/EPA.h and Bodies/QuickHull.h |
| epa.dfy | Epa | CollisionDetected/EPA.cpp (class EPA) |
| quickhull.dfy | QuickHulls | Bodies/QuickHull.cpp (class QuickHull) |

Objects that the engine updates in place are classes here: shapes, bodies,
rotation matrices, bounds trees, the contact container, the solvers and the
world. Their methods say what they modify. Loops are `while` loops with
invariants. Vectors, bounds and materials are value types in the engine, so
they are datatypes here. Bodies and collision groups are named by their index
in the world's lists.

## Model

| member | source | states |
|---|---|---|
| Vector3Math.Neg | Physics/VectorMath/Vector3.h:99-102 | unary minus is the additive inverse: a + (-a) is the zero vector |
| Vector3Math.NegNeg | Physics/VectorMath/Vector3.h:99-102 | negating twice gives the vector back |
| Vector3Math.LengthSquared | Physics/VectorMath/Vector3.h:104-107 | the squared length is never negative |
| Vector3Math.DotSymmetric | Physics/VectorMath/Vector3.cpp:5-8 | dot(a, b) == dot(b, a) |
| Vector3Math.CrossAntisymmetric | Physics/VectorMath/Vector3.cpp:10-15 | cross(a, b) == -cross(b, a) |
| Vector3Math.CrossOrthogonal | Physics/VectorMath/Vector3.cpp:10-15 | cross(a, b) is orthogonal to a and to b |
| Vector3Math.Normalize | Physics/VectorMath/Vector3.h:114-128 | below EPS the vector becomes zero and 0 is returned; otherwise the returned length times the new vector is the old vector, and the new vector has unit length when the length is the true one |
| Vector3Math.UnitAfterDivision | Physics/VectorMath/Vector3.h:114-128 | dividing by the true positive length gives a unit vector that scales back to the original |
| Vector3Math.MinAxis | Physics/VectorMath/Vector3.h:151-159 | each component becomes the smaller of the two, and is one of them |
| Vector3Math.MaxAxis | Physics/VectorMath/Vector3.h:161-169 | each component becomes the larger of the two, and is one of them |
| Vector3Math.Equal | Physics/VectorMath/Vector3.h:210-219 | true exactly when every component differs by at most EPS |
| Vector3Math.EqualSymmetric | Physics/VectorMath/Vector3.h:210-219 | equal is symmetric |
| Vector3Math.EqualScalar | Physics/VectorMath/Vector3.h:221-230 | equal(a) is equal against (a, a, a) |
| Vector3Math.InBound | Physics/VectorMath/Vector3.h:232-235 | true exactly when every component lies strictly inside (-a, a); then a is positive |
| Vector3Math.EqualDirRejectsZeroMismatch | Physics/VectorMath/Vector3.h:171-208 | a component below EPS in the receiver but not in the argument makes equalDir false |
| Vector3Math.EqualDirNotSymmetric | Physics/VectorMath/Vector3.h:171-208 | equalDir((1,1,1), 0) holds while equalDir(0, (1,1,1)) does not |
| Vector3Math.ProjectionNOrthogonal | Physics/VectorMath/Vector3.cpp:17-21 | with a unit ray normal, point minus its projection is orthogonal to the ray |
| Vector3Math.ResidualOrthogonal | Physics/VectorMath/Vector3.cpp:17-45 | dot(w - n*k, n) == dot(w, n) - k*|n|^2, the step every projection takes |
| Vector3Math.Projection | Physics/VectorMath/Vector3.cpp:23-31 | a direction with squared length at most EPS gives back `point`; otherwise the result lies on the ray line and point minus result is orthogonal to the direction |
| Vector3Math.CrossScaledSelf | Physics/VectorMath/Vector3.cpp:10-15 | a multiple of a vector crossed with it is zero |
| Vector3Math.ProjectionToPlaneNOnPlane | Physics/VectorMath/Vector3.cpp:33-36 | with a unit normal the projected point lies on the plane |
| Vector3Math.ProjectionAlongSegment | Physics/VectorMath/Vector3.cpp:33-36 | the projection is affine: the point at parameter t on a segment projects to the point at parameter t on the projected segment |
| Vector3Math.ProjectionToPlane | Physics/VectorMath/Vector3.cpp:38-45 | a direction with squared length at most EPS gives back `point`; otherwise the result lies on the plane |
| Vector3Math.CollisionPlaneRay | Physics/VectorMath/Vector3.cpp:74-83 | fails exactly when abs(dot(rayDir, normal)) < EPS; on success the point is rayPoint + rayDir*t and satisfies dot(point, normal) + D == 0 |
| Vector3Math.DotAlongRay | Physics/VectorMath/Vector3.cpp:74-95 | dot(p + dir*t, n) == dot(p, n) + t*dot(dir, n) |
| Vector3Math.CollisionPlaneRayAt | Physics/VectorMath/Vector3.cpp:85-95 | fails exactly when abs(dot(rayDir, normal)) < EPS; on success the point is rayPoint + rayDir*t and lies on the plane through planePoint |
| Vector3Math.CollisionLinesOnPlane | Physics/VectorMath/Vector3.cpp:97-137 | fails for a segment A with squared length at most EPS; on success tA and tB lie in [0, 1] and the point is a1 + (a2 - a1)*tA |
| Vector3Math.CreateNormal12 | Physics/VectorMath/Vector3.cpp:178-185 | normalX and normalY are orthogonal to the normal and to each other, and normalY crosses the normal with (1,0,2), or (2,0,-1) when the normal equals (1,0,2) |
| Vector2Math.Cross2Antisymmetric | Physics/VectorMath/Vector2.cpp:10-13 | the 2D cross is antisymmetric, so a vector crossed with itself is 0 |
| Vector2Math.LengthSquared2 | Physics/VectorMath/Vector2.h:110-113 | the squared length is never negative |
| Vector2Math.Normalize2 | Physics/VectorMath/Vector2.h:120-131 | below EPS the vector becomes zero and 0 is returned; otherwise the prior length is returned and scales the new vector back to the old one, which has unit length when the length is the true one |
| Vector2Math.MinAxis2 | Physics/VectorMath/Vector2.h:139-145 | each component becomes the smaller of the two, and is one of them |
| Vector2Math.MaxAxis2 | Physics/VectorMath/Vector2.h:147-153 | each component becomes the larger of the two, and is one of them |
| Vector2Math.Equal2 | Physics/VectorMath/Vector2.h:180-187 | true exactly when both components are within EPS, whichever side is the receiver |
| Vector2Math.InBound2 | Physics/VectorMath/Vector2.h:198-201 | true exactly when both components lie strictly inside (-a, a) |
| Vector2Math.EqualDir2RejectsZeroMismatch | Physics/VectorMath/Vector2.h:155-178 | a component below EPS in the receiver but not in the argument makes equalDir false |
| Vector2Math.Projection2 | Physics/VectorMath/Vector2.cpp:25-33 | a direction with squared length at most EPS gives back `rayPoint`, not `point`; otherwise point minus the result is orthogonal to the direction; the result always lies on the ray line |
| Vector2Math.SolveWithSlope | Physics/VectorMath/Vector2.cpp:39-69 | the two parameters solved with the y-slope of ray A name one point on both rays |
| Vector2Math.SolveLines | Physics/VectorMath/Vector2.cpp:73-101 | the unbounded solve fails exactly on the near-zero denominator tests, always when both x-directions are within EPS of 0, and otherwise names a point on both lines |
| Vector2Math.LinesMeet | Physics/VectorMath/Vector2.cpp:39-69 | the closed-form parameters put ray B's point on ray A's |
| Vector2Math.CollisionRays | Physics/VectorMath/Vector2.cpp:35-71 | fails when both x-directions are within EPS of 0; on success both parameters lie in [-EPS, 1 + EPS] and name one point on both rays |
| Vector2Math.CollisionLines | Physics/VectorMath/Vector2.cpp:73-101 | fails exactly on the near-zero denominator tests, with no range check; a success whose parameters lie in [-EPS, 1 + EPS] is what collisionRays returns |
| Rotation.VectorToAxis | Physics/VectorMath/RotationMatrix.h:38-43 | component i of the result is dot(v, axis i) |
| Rotation.IdentityMapsAreIdentity | Physics/VectorMath/RotationMatrix.h:16-21 | with the identity axes both vectorToAxis and vectorRotated leave every vector unchanged |
| Rotation.VectorRotatedAdditive | Physics/VectorMath/RotationMatrix.h:45-48 | vectorRotated maps a sum to the sum of the images |
| Rotation.GramSchmidtOrthogonal | Physics/VectorMath/RotationMatrix.h:67-68 | with a unit X, the re-orthogonalised Y is orthogonal to X whatever length normalize divides by |
| Rotation.RotationMatrix.constructor | Physics/VectorMath/RotationMatrix.h:11-14 | a new matrix holds the identity axes |
| Rotation.RotationMatrix.SetToIdentity | Physics/VectorMath/RotationMatrix.h:16-21 | the axes become the identity |
| Rotation.RotationMatrix.Axis | Physics/VectorMath/RotationMatrix.h:50-58 | operator[] n returns axis n |
| Rotation.RotationMatrix.Rotate | Physics/VectorMath/RotationMatrix.h:60-73 | accepts exactly when the angle is longer than EPS; a rejected call leaves the axes as they were; an accepted one writes the Turned frame for the unit axis and the angle's length |
| Rotation.RotationMatrix.RotateDt | Physics/VectorMath/RotationMatrix.h:75-89 | accepts exactly when the angle is longer than EPS, and the axes become RotatedDt of the old ones |
| Rotation.RotatedDt | Physics/VectorMath/RotationMatrix.h:75-89 | a rejected angle leaves the three axes unchanged |
| Rotation.Turned | Physics/VectorMath/RotationMatrix.h:64-69 | X turned about the axis, Y turned and re-orthogonalised against the new X, and Z = cross(X, Y) |
| Rotation.TurnedOrthogonal | Physics/VectorMath/RotationMatrix.h:67-69 | after an accepted rotate the new Z is orthogonal to the new X and Y |
| Materials.DefaultMaterial | Physics/Bodies/Material.cpp:5-8 | the default material has e = 0 and mu = 1 |
| Materials.Set | Physics/Bodies/Material.cpp:35-39 | after set(e, mu) the getters give e and mu |
| Materials.SetE | Physics/Bodies/Material.cpp:20-23 | only e changes |
| Materials.SetMu | Physics/Bodies/Material.cpp:30-33 | only mu changes |
| Materials.Mixed | Physics/Bodies/Material.cpp:41-44 | the restitution is the product and the friction the mean of the two |
| Materials.MixedCommutative | Physics/Bodies/Material.cpp:41-44 | mixing does not depend on the order of the two materials |
| Materials.MixedPhysical | Physics/Bodies/Material.cpp:41-44 | two materials with e in [0, 1] and mu >= 0 mix into one, with mu between the two and e at most the smaller |
| BoundsBox.Init | Physics/Bodies/Shape.h:24-28 | min is (+MAX, +MAX, +MAX) and max is (-MAX, -MAX, -MAX) |
| BoundsBox.Center | Physics/Bodies/Shape.h:30-33 | twice the centre is min + max |
| BoundsBox.Merge | Physics/Bodies/Shape.h:35-39 | the merge contains both operands |
| BoundsBox.MergeInit | Physics/Bodies/Shape.h:24-39 | merging finite bounds into initialised ones gives those bounds |
| BoundsBox.MergeCommutative | Physics/Bodies/Shape.h:35-39 | merge is commutative |
| BoundsBox.MergeAssociative | Physics/Bodies/Shape.h:35-39 | merge is associative |
| BoundsBox.MergeIdempotent | Physics/Bodies/Shape.h:35-39 | merging bounds with themselves changes nothing |
| BoundsBox.MergeLeast | Physics/Bodies/Shape.h:35-39 | any box containing both operands contains their merge |
| BoundsBox.CollisionIffCommonPoint | Physics/Bodies/Shape.h:41-48 | for well-formed boxes, collision holds exactly when they share a point |
| BoundsBox.CollisionSymmetric | Physics/Bodies/Shape.h:41-48 | collision is symmetric |
| BoundsBox.CollisionOfCommonPoint | Physics/Bodies/Shape.h:41-48 | boxes that share a point collide |
| BoundsBox.CollisionMonotone | Physics/Bodies/Shape.h:41-48 | growing two colliding boxes keeps them colliding |
| Bodies.PointsBounds | Physics/Bodies/Shape.cpp:60-69 | the accumulated bounds hold every vertex |
| Bodies.PointsBoundsLeast | Physics/Bodies/Shape.cpp:60-69 | for finite vertices they are the least such box: any box holding every vertex contains them |
| Bodies.MergePoints | Physics/Bodies/Hull.cpp:94-102 | widening a box by vertices keeps the box and adds every vertex |
| Bodies.InertiaBox | Physics/Bodies/Body.cpp:224-255 | the box calculateLocalInertia evidently means to build contains the extent of every shape, both capsule ends included |
| Bodies.InertiaBoxAsWrittenDropsCapsuleEnd | Physics/Bodies/Body.cpp:238-251 | as written, the box of a capsule from (0,0,-1) to (0,0,1) with radius 0.5 misses its end (0,0,1), which the corrected box holds |
| Bodies.InertiaBoxAsWrittenForgetsEarlierShapes | Physics/Bodies/Body.cpp:226-255 | as written, a sphere after a hull overwrites the box, so the hull vertex (5,0,0) falls outside it, while the corrected box holds it |
| Bodies.Shape.Geom | Physics/Bodies/Body.cpp:226-255 | the geometry calculateLocalInertia reads of a shape: its kind, local vertices and radius |
| Bodies.Shape.SphereAtOrigin | Physics/Bodies/Sphere.cpp:8-17 | a sphere with one vertex at the origin, radius 0, no body, the maximum index and the default material |
| Bodies.Shape.Sphere | Physics/Bodies/Sphere.cpp:19-28 | a sphere with exactly one local and one world vertex, the given centre and radius, no body and the maximum index |
| Bodies.Shape.Capsule | Physics/Bodies/Capsule.cpp:6-17 | a capsule with the two given ends and radius, its direction and length refreshed as _updateDir leaves them |
| Bodies.Shape.CapsuleOfLength | Physics/Bodies/Capsule.cpp:19-30 | a capsule with ends (0,0,-length/2) and (0,0,length/2), direction and length refreshed |
| Bodies.Shape.Hull | Physics/Bodies/Hull.cpp:8-12 | a hull with no vertices and no polygons, no body and the maximum index |
| Bodies.Shape.UpdateDir | Physics/Bodies/Capsule.cpp:84-88 | the direction is B - A divided by its length, which is stored; both are zero when the ends are closer than EPS |
| Bodies.Shape.SetLocalVertices | Physics/Bodies/Capsule.cpp:62-67 | both ends are stored and the direction and length refreshed |
| Bodies.Shape.LocalPosition | Physics/Bodies/Sphere.cpp:40-43 | the centre is the first local vertex |
| Bodies.Shape.SetLocalPosition | Physics/Bodies/Sphere.cpp:45-48 | localPosition then returns the value set |
| Bodies.Shape.Position | Physics/Bodies/Sphere.cpp:50-53 | the world centre is the first world vertex |
| Bodies.Shape.SetCountVertices | Physics/Bodies/Hull.cpp:25-29 | both vertex arrays get `count` entries and keep their prefixes |
| Bodies.Shape.SetVertices | Physics/Bodies/Hull.cpp:31-35 | the local vertices are the ones given and the world array has as many |
| Bodies.Shape.MoveLocalVertices | Physics/Bodies/Hull.cpp:37-42 | every local vertex moves by `v`; the count is kept |
| Bodies.Shape.ScaleLocalVertices | Physics/Bodies/Hull.cpp:44-49 | every local vertex is scaled componentwise; the count is kept |
| Bodies.Shape.CubeVertices | Physics/Bodies/Hull.cpp:105-117 | a fresh hull with 8 local vertices, one for each sign pattern of (sx, sy, sz) |
| Bodies.Shape.Copy | Physics/Bodies/Sphere.cpp:55-63 | a fresh shape of the same kind and no body keeps both vertex arrays and the material; spheres and capsules keep the radius, capsules both directions and the length of Capsule(2, 1), hulls their polygons (also Capsule.cpp:90-100, Hull.cpp:82-90) |
| Bodies.Shape.GetLocalBounds | Physics/Bodies/Shape.cpp:60-69 | the accumulated bounds of the local vertices, which hold every one of them |
| Bodies.Shape.Support | Physics/Bodies/Shape.cpp:71-82 | the result is at least MIN and no world vertex exceeds it along `dir`; the vertex is the first one attaining it, or stays as it was when none beats MIN |
| Bodies.Shape.SupportLocal | Physics/Bodies/Shape.cpp:84-95 | the same over the local vertices, bounded by the world count, which is why there must be at least as many local vertices |
| Bodies.Shape.Update | Physics/Bodies/Sphere.cpp:65-70 | a sphere's centre and a capsule's ends move to position + the rotated local point and its bounds are those points widened by the radius; a hull's world vertices are its rotated local ones moved to position and its bounds the least box around them (also Capsule.cpp:102-113, Hull.cpp:92-103) |
| Bodies.Shape.UpdateHull | Physics/Bodies/Hull.cpp:92-103 | every world vertex is the rotated local vertex plus the position, and the bounds are the least box holding them |
| Bodies.Shape.LeaveBody | Physics/Bodies/Shape.cpp:28-29 | the shape is erased from its body's list at its stored index, and the body stays valid |
| Bodies.Shape.SetBody | Physics/Bodies/Shape.cpp:26-33 | the old body loses the shape at its stored index, the new one gains it at the end, and the shape keeps the index _addShape returns |
| Bodies.Shape.JoinBody | Physics/Bodies/Shape.cpp:30-31 | the shape is appended to its new body and stores its index there; with no new body the index is kept |
| Bodies.Shape.Append | Physics/Bodies/Body.cpp:327-332 | the shape is appended and stores the index of the last entry |
| Bodies.PlacedHull | Physics/Bodies/Hull.cpp:94-102 | every world vertex is the rotated local vertex plus the position, and the bounds are those PointsBounds gives |
| Bodies.SupportOf | Physics/Bodies/Shape.cpp:71-95 | the largest dot product over the first `count` vertices, at least MIN, and the first vertex attaining it |
| Bodies.Resized | Physics/Bodies/Hull.cpp:25-29 | the prefix is kept and new entries are zero |
| Bodies.Body.constructor | Physics/Bodies/Body.cpp:9-24 | a new enabled body at the origin, at rest, with unit inverse mass and inertia, identity rotation, no shapes or contacts, and one group that is both its default and its current group |
| Bodies.Body.Mass | Physics/Bodies/Body.cpp:109-112 | 0 for a static body, and the inverse of invMass for a dynamic one |
| Bodies.Body.SetMass | Physics/Bodies/Body.cpp:114-117 | invMass is 1/mass above EPS and 0 otherwise, so the body is dynamic exactly when mass > EPS |
| Bodies.Body.SetInertia | Physics/Bodies/Body.cpp:127-130 | invInertia is 1/inertia above EPS and 0 otherwise |
| Bodies.Body.ApplyLinearImpulse | Physics/Bodies/Body.cpp:134-137 | the velocity gains normal*invMass*impulse, so a body with zero invMass keeps its velocity |
| Bodies.Body.ApplyLinearImpulseVector | Physics/Bodies/Body.cpp:139-142 | the velocity gains the impulse times invMass |
| Bodies.Body.ApplyAngularImpulse | Physics/Bodies/Body.cpp:144-153 | the angular velocity gains rn*invInertia*impulse, so zero invInertia keeps it |
| Bodies.Body.ApplyAngularImpulseVector | Physics/Bodies/Body.cpp:155-164 | the angular velocity gains the impulse times invInertia |
| Bodies.Body.ApplyImpulse | Physics/Bodies/Body.cpp:166-170 | the linear part pushes along the normal, the angular part about (point - position) x normal |
| Bodies.Body.ApplyLinearPseudoImpulse | Physics/Bodies/Body.cpp:172-175 | the pseudo-velocity gains normal*j with no mass scaling |
| Bodies.Body.ApplyLinearPseudoImpulseVector | Physics/Bodies/Body.cpp:177-180 | the pseudo-velocity gains the impulse |
| Bodies.Body.ApplyAngularPseudoImpulse | Physics/Bodies/Body.cpp:182-191 | the pseudo-angular velocity gains rn*invInertia*j |
| Bodies.Body.ApplyAngularPseudoImpulseVector | Physics/Bodies/Body.cpp:193-202 | the pseudo-angular velocity gains the impulse times invInertia |
| Bodies.Body.Geoms | Physics/Bodies/Body.cpp:226-255 | the geometry of shape k is entry k |
| Bodies.Body.CalculateLocalInertiaAsWritten | Physics/Bodies/Body.cpp:224-265 | invInertia becomes 12/|d|^2 of the box InertiaBoxAsWritten builds, times invMass |
| Bodies.Body.CalculateLocalInertia | Physics/Bodies/Body.cpp:224-265 | invInertia becomes 12/|d|^2 of the box that holds every shape whole, times invMass |
| Bodies.Body.Update | Physics/Bodies/Body.cpp:267-280 | the position moves by (v + pseudoV)*dt; both pseudo-velocities become zero; v becomes (v + g*dt)*damping; the rotation turns by the angular plus pseudo-angular velocity, the angular velocity is zeroed when the turn is rejected and then damped; every shape is placed at the new pose |
| Bodies.Body.Integrate | Physics/Bodies/Body.cpp:269-278 | the same integration of position, velocities and rotation, without the shapes |
| Bodies.Body.UpdateShapes | Physics/Bodies/Body.cpp:282-286 | every shape is placed at the body's pose |
| Bodies.Body.ShapeBounds | Physics/Bodies/Body.cpp:288-291 | entry k is the current bounds of shape k |
| Bodies.Body.LocalBounds | Physics/Bodies/Body.cpp:327-338 | entry k is the bounds of shape k's local vertices |
| Bodies.Body.UpdateBoundsTree | Physics/Bodies/Body.cpp:288-291 | every node reached from the root is refreshed: a leaf holds its shape's bounds, an internal node the merge of its children's |
| Bodies.Body.AddShape | Physics/Bodies/Body.cpp:327-332 | the shape is appended and its index returned; the tree is rebuilt with 2K-1 nodes whose leaves hold each shape index exactly once |
| Bodies.Body.RemoveShapeAsWritten | Physics/Bodies/Body.cpp:334-338 | the shape is erased and the tree rebuilt over the rest; removing the last shape leaves the old tree, whose leaves then name a shape that no longer exists |
| Bodies.Body.RemoveShape | Physics/Bodies/Body.cpp:334-338 | the shape is erased and the tree rebuilt over the rest, or cleared when none is left, so the body stays valid |
| Bodies.Body.AddContact | Physics/Bodies/Body.cpp:104-107 | the manifold index is appended to the contact list |
| Bodies.Body.UpdateContactsOnBody | Physics/Bodies/Body.cpp:340-344 | the previous contacts are the old current ones and the current list is empty |
| Bodies.Body.MergeCollisionGroup | Physics/Bodies/Body.cpp:346-353 | both bodies end in one current group: the higher-indexed body's, and on equal indices the other body's |
| Bodies.Body.MergeCollisionGroupAndAwake | Physics/Bodies/Body.cpp:355-363 | the same merge, and the receiver's default group is marked awake with nothing else in the list changed |
| Bodies.AppendedDistinct | Physics/Bodies/Body.cpp:327-332 | appending a shape not yet listed keeps the list free of repeats |
| Bodies.RemovedDistinct | Physics/Bodies/Body.cpp:334-338 | erasing an entry of a list without repeats leaves one without repeats that lacks it |
| Bodies.NoLeafBelowZero | Physics/Bodies/Body.cpp:334-338 | a tree always has a leaf naming some shape, so it cannot fit an empty shape list |
| Bodies.BoxInertia | Physics/Bodies/Body.cpp:257-264 | 12 over the squared diagonal is positive for any box that is not a point |
| Bodies.InverseOf | Physics/Bodies/Body.cpp:114-130 | above EPS the stored value is the positive inverse; otherwise it is 0 |
| Bodies.InertiaBoxAsWrittenLoop | Physics/Bodies/Body.cpp:226-255 | the shape loop as written builds InertiaBoxAsWritten |
| Bodies.InertiaBoxLoop | Physics/Bodies/Body.cpp:226-255 | the corrected shape loop builds InertiaBox |
| Bodies.GeomsOf | Physics/Bodies/Body.cpp:226-255 | entry k is the geometry of shape k |
| Bodies.BoundsOf | Physics/Bodies/Body.cpp:288-291 | entry k is the bounds of shape k |
| Bodies.LocalBoundsOf | Physics/Bodies/Body.cpp:327-338 | entry k is the bounds of shape k's local vertices |
| BoundsTrees.Leaves | Physics/Bodies/BoundsTrees.cpp:51-101 | the shapes held by the leaves under a node, with multiplicity; none is negative |
| BoundsTrees.Reach | Physics/Bodies/BoundsTrees.cpp:88-91 | the nodes under node i include i and lie between i and the end of the vector, since children come after their parent |
| BoundsTrees.SubtreeBounds | Physics/Bodies/BoundsTrees.cpp:103-112 | the bounds _computeBounds gives node i; a leaf takes its shape's bounds |
| BoundsTrees.StructureInvariance | Physics/Bodies/BoundsTrees.cpp:103-112 | rewriting bounds changes neither the links, the nodes reached nor the shapes held |
| BoundsTrees.ReachFrameExcept | Physics/Bodies/BoundsTrees.cpp:51-101 | a subtree survives appends and the rewrite of any node it does not reach |
| BoundsTrees.ReachClosed | Physics/Bodies/BoundsTrees.cpp:51-101 | the nodes under a reached node are reached too, and hold shapes of the same list |
| BoundsTrees.JoinChildren | Physics/Bodies/BoundsTrees.cpp:88-100 | an internal node over two later subtrees reaches itself and both, and holds both children's shapes |
| BoundsTrees.JoinRuns | Physics/Bodies/BoundsTrees.cpp:88-100 | a node whose children at ia and ia + 1 reach consecutive runs of the vector reaches exactly itself and [ia, n2) |
| BoundsTrees.SplitInRange | Physics/Bodies/BoundsTrees.cpp:78-98 | a split of a list of valid shape indices keeps both parts valid and the total count |
| BoundsTrees.MergeAll | Physics/Bodies/BoundsTrees.cpp:64-73 | the merged bounds contain the bounds of every listed shape |
| BoundsTrees.Summarize | Physics/Bodies/BoundsTrees.cpp:64-73 | the loop returns the merge of all the shapes' bounds and the sum of their centres, not the mean |
| BoundsTrees.LongestAxis | Physics/Bodies/BoundsTrees.cpp:74-77 | the chosen axis is one along which the extent is largest |
| BoundsTrees.Partition | Physics/Bodies/BoundsTrees.cpp:78-86 | the two parts are a split of the shapes as a multiset; A holds the shapes whose centre on the axis lies below the summed-centre pivot, B the others |
| BoundsTrees.Rebalance | Physics/Bodies/BoundsTrees.cpp:92-98 | neither part is empty afterwards, the shapes are the same multiset, and two non-empty parts are left as they were |
| BoundsTrees.BoundsTree.IsEmpty | Physics/Bodies/BoundsTrees.cpp:6-9 | true exactly when there are no nodes |
| BoundsTrees.BoundsTree.Compute | Physics/Bodies/BoundsTrees.cpp:36-42 | an empty shape list leaves the tree unchanged; otherwise the tree has 2K-1 nodes, all reached from node 0, whose leaves hold each shape exactly once |
| BoundsTrees.BoundsTree.ComputeNode | Physics/Bodies/BoundsTrees.cpp:51-101 | only node i and 2(K-1) appended nodes change; node i holds exactly the given shapes and reaches itself and the appended nodes; one shape makes it a leaf with that shape's bounds, several an internal node bounding all of them |
| BoundsTrees.BoundsTree.ComputeChildren | Physics/Bodies/BoundsTrees.cpp:99-100 | the two children just appended receive the two parts, so node i holds both and reaches the nodes appended since |
| BoundsTrees.BoundsTree.ComputeSecond | Physics/Bodies/BoundsTrees.cpp:100 | the second child receives its part and node i then holds both parts |
| BoundsTrees.BoundsTree.Update | Physics/Bodies/BoundsTrees.cpp:44-49 | an empty tree is left alone; otherwise the links stay and every reached leaf holds its shape's current bounds and every reached internal node the merge of its children's |
| BoundsTrees.BoundsTree.ComputeBounds | Physics/Bodies/BoundsTrees.cpp:103-112 | every node under i gets the bounds SubtreeBounds gives it, which node i's return value is; other nodes and all links are kept |
| BroadPhase.TreeWalk | Physics/PhysicsWorld.cpp:183-190 | an empty tree on either side gives no visit |
| BroadPhase.FreshBelow | Physics/PhysicsWorld.cpp:192-224 | a subtree of a freshly refreshed subtree is rooted and refreshed too |
| BroadPhase.FreshChildren | Physics/PhysicsWorld.cpp:192-224 | both children of a refreshed internal node are rooted and refreshed, and split its shapes |
| BroadPhase.ContainsLeaves | Physics/PhysicsWorld.cpp:192-224 | with refreshed bounds, a node's bounds contain those of every shape under it, which is why pruning a node misses no overlap |
| BroadPhase.ShapeWalkSound | Physics/PhysicsWorld.cpp:294-307 | every visit of a shape's walk down a tree pairs that shape with a shape under the node whose bounds overlap its own |
| BroadPhase.ShapeWalkComplete | Physics/PhysicsWorld.cpp:294-307 | every shape under the node whose bounds overlap the walked shape's is visited |
| BroadPhase.NodeWalkSound | Physics/PhysicsWorld.cpp:192-224 | every visit of the walk of two trees pairs a shape of each whose bounds overlap |
| BroadPhase.SoundWithin | Physics/PhysicsWorld.cpp:210-222 | visits sound for a pair of children are sound for their parents |
| BroadPhase.LeafLeafSound | Physics/PhysicsWorld.cpp:197-199 | the visit of two overlapping leaves pairs their shapes |
| BroadPhase.LeafNodeSound | Physics/PhysicsWorld.cpp:200-203 | a leaf of A against an internal node of B visits only overlapping pairs |
| BroadPhase.NodeLeafSound | Physics/PhysicsWorld.cpp:205-208 | an internal node of A against a leaf of B visits only overlapping pairs |
| BroadPhase.NodeWalkComplete | Physics/PhysicsWorld.cpp:192-224 | every pair of a shape under each node whose bounds overlap is visited, in one order or the other |
| Contacts.TangentialOrthogonal | Physics/Dynamic/ContactsContainer.cpp:46-48 | the relative slip with its normal component removed is orthogonal to a unit contact normal |
| Contacts.BinormalInPlane | Physics/Dynamic/ContactsContainer.cpp:43-80 | when the slip is long enough the friction binormal is the unit slip direction; whenever the fallback axis is usable the binormal of a dynamic and of a static pair lies in the contact plane |
| Contacts.WithStaticPoint | Physics/Dynamic/ContactsContainer.cpp:110-128 | adding a static contact point appends one slot: the offset from body A reconstructs the point, both depths are (depth - MAIN_DEPTH) times their ERP factor, earlier slots and every other field are unchanged |
| Contacts.WithPoint | Physics/Dynamic/ContactsContainer.cpp:82-108 | adding a contact point appends one slot with both offsets (the B offset only when B is not static), the ERP-scaled depths, and leaves earlier slots and every other field unchanged |
| Contacts.WithPoints | Physics/Dynamic/ContactsContainer.cpp:152-154 | adding several points raises the count by their number and keeps the bodies, the normal and the static flag |
| Contacts.WithPointsKeeps | Physics/Dynamic/ContactsContainer.cpp:152-154 | slots filled before the batch are unchanged by it |
| Contacts.WithPointsRecords | Physics/Dynamic/ContactsContainer.cpp:152-154 | the k-th point of the batch lands in slot count+k with its own offset and depths |
| Contacts.WithPointsSnoc | Physics/Dynamic/ContactsContainer.cpp:152-154 | a batch with one more point equals the shorter batch followed by adding that point |
| Contacts.Midpoint | Physics/Dynamic/ContactsContainer.cpp:134 | the stored point of a temporary contact is equidistant from the two surface points |
| Contacts.Extreme | Physics/Dynamic/ContactsContainer.cpp:159-181 | the scan keeps the first point with the strictly largest (or smallest) projection on a basis axis, or no point and the sentinel when none beats it |
| Contacts.ExtremeStep | Physics/Dynamic/ContactsContainer.cpp:163-181 | scanning one more point replaces the extreme exactly when the new projection beats it |
| Contacts.ExtremeIds | Physics/Dynamic/ContactsContainer.cpp:159-181 | the four extremes are each no candidate or a scanned candidate |
| Contacts.Chosen | Physics/Dynamic/ContactsContainer.cpp:183-193 | the added candidates are real candidates taken from the four extremes, each at its last occurrence |
| Contacts.ChosenDistinct | Physics/Dynamic/ContactsContainer.cpp:183-193 | no candidate is added twice |
| Contacts.ChosenKeeps | Physics/Dynamic/ContactsContainer.cpp:183-193 | every extreme that is not repeated later is added |
| Contacts.ChosenComplete | Physics/Dynamic/ContactsContainer.cpp:183-193 | every candidate among the four extremes ends up added |
| Contacts.Swapped | Physics/Dynamic/ContactsContainer.cpp:207-222 | swapping a manifold exchanges the bodies and their contact offsets and negates the normal, nothing else |
| Contacts.SwappedTwice | Physics/Dynamic/ContactsContainer.cpp:207-222 | swapping twice gives back the manifold |
| Contacts.OrderedPutsStaticLast | Physics/Dynamic/ContactsContainer.cpp:205-225 | after ordering, B is dynamic exactly when neither body is static; a static A with a dynamic B is swapped; otherwise only the flag changes |
| Contacts.MatchPoint | Physics/Dynamic/ContactsContainer.cpp:244-268 | the match is the first previous slot within the contact tolerance, or none when no slot is |
| Contacts.WarmInfo | Physics/Dynamic/ContactsContainer.cpp:241-274 | a matched slot inherits the previous impulses (friction negated for a swapped pair); an unmatched slot starts from zero; nothing else changes |
| Contacts.CountMatched | Physics/Dynamic/ContactsContainer.cpp:264-273 | the number of reused slots is between zero and the slot count, and zero without a previous manifold |
| Contacts.Warmed | Physics/Dynamic/ContactsContainer.cpp:239-318 | warm starting changes only the impulse record: each warmed slot carries its WarmInfo, later slots are untouched |
| Contacts.WarmedStep | Physics/Dynamic/ContactsContainer.cpp:242-275 | warming one more slot extends the warmed manifold by that slot's WarmInfo |
| Contacts.PrevMatch | Physics/Dynamic/ContactsContainer.cpp:228-238 | the previous manifold found is one of body A's previous manifolds touching B, flagged swapped when B was its A; none exactly when no previous manifold of A touches B |
| Contacts.PrevFound | Physics/Dynamic/ContactsContainer.cpp:228-240 | the previous manifold used is the one PrevMatch finds, and an empty one when there is none |
| Contacts.PushedSums | Physics/Dynamic/ContactsContainer.cpp:250-262 | pushing a body slot by slot equals one push by the summed impulses of the matched slots |
| Contacts.MomentumBalanced | Physics/Dynamic/ContactsContainer.cpp:257-258 | the equal and opposite linear impulses on the two bodies change their total momentum by nothing |
| Contacts.LocalsAsWrittenMissDynamicBody | Physics/Dynamic/ContactsContainer.cpp:207-210 | as written, with a static body 0 and a dynamic body 1 both local body pointers end up on the static body, while the manifold's A becomes body 1 |
| Contacts.WarmPoint | Physics/Dynamic/ContactsContainer.cpp:250-262 | a matched slot pushes body A by its impulses and a dynamic B by the opposite ones; a static B is untouched |
| Contacts.Push | Physics/Dynamic/ContactsContainer.cpp:251-255 | one push adds the scaled linear, angular and pseudo impulses to the body's four velocities |
| Contacts.MatchIn | Physics/Dynamic/ContactsContainer.cpp:244-268 | the search loop returns MatchPoint's slot |
| Contacts.ContactsContainer.constructor | Physics/Dynamic/ContactsContainer.cpp:6-11 | a new container has ERP factors 0.15 and 0.3, zero counters and no manifolds |
| Contacts.ContactsContainer.SetERP | Physics/Dynamic/ContactsContainer.cpp:13-17 | sets both ERP factors |
| Contacts.ContactsContainer.ClearCMPoints | Physics/Dynamic/ContactsContainer.cpp:19-22 | empties the temporary point buffer |
| Contacts.ContactsContainer.AddContactManifold | Physics/Dynamic/ContactsContainer.cpp:24-41 | appends an empty manifold with restitution 1+e and friction mu, returns its index; a dynamic B joins A's collision group and wakes it, a static B changes no group |
| Contacts.ContactsContainer.AddContact | Physics/Dynamic/ContactsContainer.cpp:82-108 | the manifold gains the point as WithPoint says, and the caller's point comes back with its depth lowered by MAIN_DEPTH |
| Contacts.ContactsContainer.AddContactStatic | Physics/Dynamic/ContactsContainer.cpp:110-128 | the manifold gains the point as WithStaticPoint says |
| Contacts.ContactsContainer.AddTempContactPoint | Physics/Dynamic/ContactsContainer.cpp:130-137 | the next buffer slot holds both surface points, their midpoint and the depth |
| Contacts.ContactsContainer.AddTempContactPointStatic | Physics/Dynamic/ContactsContainer.cpp:139-145 | the next buffer slot holds the surface point as both point and pointOnBodyA, and the depth; its pointOnBodyB is left as it was |
| Contacts.ContactsContainer.Extremes | Physics/Dynamic/ContactsContainer.cpp:157-181 | the scan loop returns the four extremes ExtremeIds defines |
| Contacts.ContactsContainer.OptimizeContactPoints | Physics/Dynamic/ContactsContainer.cpp:147-195 | no buffered point drops the newest manifold; up to four are all added in order; more than four add the distinct extremes along the two basis axes of the normal |
| Contacts.ContactsContainer.AddAll | Physics/Dynamic/ContactsContainer.cpp:152-154 | every buffered point is added in order |
| Contacts.ContactsContainer.AddExtremes | Physics/Dynamic/ContactsContainer.cpp:183-193 | exactly the Chosen extremes are added, in order |
| Contacts.ContactsContainer.SwapSlots | Physics/Dynamic/ContactsContainer.cpp:207-222 | the manifold is replaced by its Swapped form |
| Contacts.ContactsContainer.OrderBodies | Physics/Dynamic/ContactsContainer.cpp:205-227 | the manifold is put in Ordered form and both of its bodies, the dynamic one included, record it |
| Contacts.ContactsContainer.OrderBodiesAsWritten | Physics/Dynamic/ContactsContainer.cpp:205-227 | as written, the locals are LocalsAsWritten's pair, so when only A is static the static body records the manifold twice and the dynamic body not at all |
| Contacts.ContactsContainer.FindPrev | Physics/Dynamic/ContactsContainer.cpp:228-238 | the search loop returns PrevMatch's manifold and orientation, or -1 |
| Contacts.ContactsContainer.WarmSlot | Physics/Dynamic/ContactsContainer.cpp:242-274 | slot i is warmed and is matched exactly when Matched finds a previous point; a match pushes all four velocities of A, and of B when B is dynamic, by SlotPushed of that slot's impulses; no match leaves them |
| Contacts.ContactsContainer.WarmStart | Physics/Dynamic/ContactsContainer.cpp:239-318 | the manifold becomes Warmed, usedPrev grows by the matched slots and notUsedPrev by the unmatched ones, and all four velocities of A, and of a dynamic B, become Pushed by the matched impulses |
| Contacts.ContactsContainer.WarmFromPrevious | Physics/Dynamic/ContactsContainer.cpp:228-318 | warm starting uses the previous manifold PrevFound picks |
| Contacts.ContactsContainer.CompareContacts | Physics/Dynamic/ContactsContainer.cpp:197-319 | the manifold is ordered, its index appended to both bodies' contact lists, warm started from the previous manifold PrevFound picks, with the used and unused counters grown by the matched and unmatched slots |
| Contacts.ContactsContainer.DeleteAllContacts | Physics/Dynamic/ContactsContainer.cpp:321-327 | the current manifolds become the previous ones, the current list empties and both counters reset |
| Contacts.ContactsContainer.UpdateCollisionGroups | Physics/Dynamic/ContactsContainer.cpp:339-343 | the bodies' indices are kept and their current groups become MergeFold of the old ones over the manifolds, one merge per manifold in order |
| Solvers.Accumulated | Physics/Dynamic/Solver.cpp:111-116 | the accumulated normal (or pseudo) impulse never goes negative, equals the old sum plus the increment whenever that is positive, and the applied increment is exactly the change of the accumulated impulse |
| Solvers.FrictionClamped | Physics/Dynamic/Solver.cpp:143-147 | the accumulated friction impulse stays within plus or minus the limit, equals the unclamped sum inside the cone and the nearer bound outside it, and the applied increment is its change |
| Solvers.AccumulatedSettled | Physics/Dynamic/Solver.cpp:111-116 | accumulating a zero increment onto a clamped impulse changes nothing |
| Solvers.StaticIsRelativeToRest | Physics/Dynamic/Solver.cpp:124-127 | the static solver's speed is the two-body relative speed against a body at rest |
| Solvers.FrictionLimit | Physics/Dynamic/Solver.cpp:143 | the friction limit impulse*mu is non-negative for a pushing impulse and non-negative mu |
| Solvers.Resist | Physics/Dynamic/Solver.cpp:62-70 | the rotational term invInertia*dot(r, r) of an effective mass is non-negative |
| Solvers.PreparedReady | Physics/Dynamic/Solver.cpp:29-103 | with a dynamic body A and non-negative inverse masses and inertias, preSolve and preSolve_static leave every slot with positive effective masses, changing only those |
| Solvers.ImpulseBalanced | Physics/Dynamic/Solver.cpp:117-121 | the equal and opposite impulses applied to two dynamic bodies leave their total momentum unchanged |
| Solvers.MomentumOfResponse | Physics/Dynamic/Solver.cpp:117 | the momentum a body gains from applyLinearImpulse(normal, j) is normal*j |
| Solvers.SolveImpulse | Physics/Dynamic/Solver.cpp:105-122 | the slot's accumulated normal impulse is Accumulated over the increment from the old relative normal speed; A is pushed by the applied increment and B by its opposite; an immovable body keeps its velocities |
| Solvers.SolveImpulseStatic | Physics/Dynamic/Solver.cpp:124-135 | the same for a pair with a static B, using A's speed alone and pushing A only |
| Solvers.SolveFriction | Physics/Dynamic/Solver.cpp:137-153 | the slot's friction impulse is FrictionClamped against the limit impulse*mu, and the bodies are pushed along the binormal by the applied change, in opposite senses |
| Solvers.SolveFrictionStatic | Physics/Dynamic/Solver.cpp:155-166 | the same for a static B, pushing A only |
| Solvers.SolvePseudo | Physics/Dynamic/Solver.cpp:168-185 | the pseudo-impulse is Accumulated over the increment from depthB and the relative pseudo speed; the pseudo velocities are pushed in opposite senses |
| Solvers.SolvePseudoStatic | Physics/Dynamic/Solver.cpp:187-198 | the same for a static B, pushing A only |
| Solvers.StepsKeep | Physics/Dynamic/Solver.cpp:222-258 | a velocity pass keeps every slot ready and every pseudo-impulse pushing; a pseudo pass keeps every slot ready and every clamp |
| Solvers.SolveSlots | Physics/Dynamic/Solver.cpp:229-232 | solving every slot of a dynamic pair changes only normal and friction impulses and leaves each slot clamped; immovable bodies keep their velocities |
| Solvers.SolveSlot | Physics/Dynamic/Solver.cpp:230-231 | solving one slot changes only its normal and friction impulses and leaves it clamped |
| Solvers.SolveSlotsStatic | Physics/Dynamic/Solver.cpp:234-237 | the same for a pair with a static B |
| Solvers.SolveSlotStatic | Physics/Dynamic/Solver.cpp:235-236 | the same for one slot of a pair with a static B |
| Solvers.SolvePseudoSlots | Physics/Dynamic/Solver.cpp:249-251 | a pseudo pass over a dynamic pair changes only the pseudo-impulses and leaves them pushing |
| Solvers.SolvePseudoSlotsStatic | Physics/Dynamic/Solver.cpp:253-255 | the same for a pair with a static B |
| Solvers.Repeat | Physics/Dynamic/Solver.cpp:264-267 | n copies of a pass, none when n is not positive |
| Solvers.SettledAfter | Physics/Dynamic/Solver.cpp:263-267 | a velocity or pseudo pass keeps a prepared manifold settled, and a pseudo pass leaves it pushing |
| Solvers.PassedSeqStep | Physics/Dynamic/Solver.cpp:203-219 | finishing one more manifold of a pass extends the finished prefix |
| Solvers.HeldStep | Physics/Dynamic/Solver.cpp:203-219 | after one manifold of a pass, only its own bodies may have moved and every group is still one of the existing groups |
| Solvers.Solver.constructor | Physics/Dynamic/Solver.cpp:6-11 | a new solver runs 8 velocity iterations and 3 split-impulse iterations over an empty container |
| Solvers.Solver.SetCountIterations | Physics/Dynamic/Solver.cpp:13-17 | sets both iteration counts |
| Solvers.Solver.PreSolveManifold | Physics/Dynamic/Solver.cpp:29-73 | marks the manifold unsolved and gives each slot in use its effective masses, from the summed inverse masses and both inertias, leaving the rest; ready when A is dynamic |
| Solvers.Solver.PreSolveManifoldStatic | Physics/Dynamic/Solver.cpp:75-103 | the same for a static B, with kPseudo built on 1 rather than 2 |
| Solvers.Solver.PreSolve | Physics/Dynamic/Solver.cpp:200-220 | every manifold is prepared, ready and clamped; bodies no manifold touches and immovable bodies keep their velocities; groups stay among the existing ones |
| Solvers.Solver.PrepareManifold | Physics/Dynamic/Solver.cpp:205-217 | one manifold is merged into one group, prepared and solved once |
| Solvers.Solver.SolveContacts | Physics/Dynamic/Solver.cpp:222-240 | one velocity pass: only normal and friction impulses change and stay clamped; untouched and immovable bodies keep their velocities |
| Solvers.Solver.SolveManifold | Physics/Dynamic/Solver.cpp:226-238 | one manifold's velocity pass |
| Solvers.Solver.SolvePseudoContacts | Physics/Dynamic/Solver.cpp:242-258 | one pseudo pass: only pseudo-impulses change and stay pushing; untouched bodies keep their pseudo velocities |
| Solvers.Solver.PseudoManifold | Physics/Dynamic/Solver.cpp:246-256 | one manifold's pseudo pass; a static B keeps its pseudo velocities |
| Solvers.Solver.Solve | Physics/Dynamic/Solver.cpp:260-268 | runs the preparing pass, countIterations-1 velocity passes and splitIterations pseudo passes, in that order; every manifold ends settled (pushing when a pseudo pass ran); untouched bodies keep all four velocities and immovable bodies their velocities |
| Solvers.Solver.ContactPasses | Physics/Dynamic/Solver.cpp:264-265 | the velocity-pass loop runs countIterations-1 passes and keeps every manifold settled and the pseudo velocities as they were |
| Solvers.Solver.PseudoPasses | Physics/Dynamic/Solver.cpp:266-267 | the pseudo-pass loop runs splitIterations passes, leaving every manifold pushing when it ran at least once |
| ShockPropagation.PushOnly | Physics/Dynamic/ShockPropagationSolver.cpp:24-28 | the shock-propagation impulse is the increment when it pushes and nothing otherwise, never negative, the same as accumulating it onto zero |
| ShockPropagation.SolveImpulseSP | Physics/Dynamic/ShockPropagationSolver.cpp:21-29 | body A is pushed by the normal increment from its own speed only when that increment is positive, and otherwise keeps its velocities; the slot record is only read |
| ShockPropagation.SolveFrictionSP | Physics/Dynamic/ShockPropagationSolver.cpp:31-40 | body A is pushed along the binormal by the fresh friction increment clamped to the cone impulse*mu, without accumulating |
| ShockPropagation.FrictionSPBounded | Physics/Dynamic/ShockPropagationSolver.cpp:35-37 | for a pushing impulse and non-negative mu that friction increment lies inside the cone |
| ShockPropagation.SolvePseudoSP | Physics/Dynamic/ShockPropagationSolver.cpp:42-50 | body A's pseudo velocities are pushed by the pseudo increment only when it is positive |
| ShockPropagation.SwapBodyOnContactManifold | Physics/Dynamic/ShockPropagationSolver.cpp:52-66 | the manifold is replaced by its Swapped form |
| ShockPropagation.SwapInvolution | Physics/Dynamic/ShockPropagationSolver.cpp:52-66 | swapping twice restores the manifold |
| ShockPropagation.StaticIndices | Physics/Dynamic/ShockPropagationSolver.cpp:72-77 | the entries collected among the first n manifolds are at most n |
| ShockPropagation.StaticIndicesSound | Physics/Dynamic/ShockPropagationSolver.cpp:72-77 | every collected entry is a manifold with a static body B, in increasing order |
| ShockPropagation.StaticIndicesComplete | Physics/Dynamic/ShockPropagationSolver.cpp:72-77 | every manifold with a static body B is collected |
| ShockPropagation.CountUnsolved | Physics/Dynamic/ShockPropagationSolver.cpp:83-127 | the number of unsolved manifolds is at most their number |
| ShockPropagation.CountUnsolvedUpdate | Physics/Dynamic/ShockPropagationSolver.cpp:86-90 | replacing one manifold changes the unsolved count by that manifold's flags alone |
| ShockPropagation.FindInLayer | Physics/Dynamic/ShockPropagationSolver.cpp:92-98 | the search reports exactly whether the body is the body A of a manifold of the layer |
| ShockPropagation.Attach | Physics/Dynamic/ShockPropagationSolver.cpp:86-122 | an unsolved manifold touching the layer with one body is marked solved, turned round when needed so that the new body is A, and attached, and that body's level becomes the layer end; touching with both it is marked solved and dropped; otherwise it is untouched; no other level changes |
| ShockPropagation.StaticLayered | Physics/Dynamic/ShockPropagationSolver.cpp:70-78 | the static manifolds, marked solved and in order, form a layered graph on their own |
| ShockPropagation.AttachedFacts | Physics/Dynamic/ShockPropagationSolver.cpp:86-122 | an attached manifold is the manifold or its swap, pairs the same two bodies, and when entered is solved and rests on the layer |
| ShockPropagation.ShapedStep | Physics/Dynamic/ShockPropagationSolver.cpp:86-122 | replacing an unsolved manifold by itself or its swap keeps the manifolds well shaped |
| ShockPropagation.EnteredStep | Physics/Dynamic/ShockPropagationSolver.cpp:100-119 | entering a solved manifold keeps the graph distinct and its static prefix |
| ShockPropagation.RestsStep | Physics/Dynamic/ShockPropagationSolver.cpp:100-119 | an entered manifold rests on the layer it touched |
| ShockPropagation.LayeredStep | Physics/Dynamic/ShockPropagationSolver.cpp:86-122 | one attach step keeps the graph layered, and each entry it adds consumes an unsolved manifold, so the loop terminates |
| ShockPropagation.SwapKeeps | Physics/Dynamic/ShockPropagationSolver.cpp:52-66 | a swap keeps the static and solved flags and exchanges the two bodies |
| ShockPropagation.VariantStep | Physics/Dynamic/ShockPropagationSolver.cpp:101 | a second swap of a manifold that began swapped or not still leaves it the original or its swap |
| ShockPropagation.MergeGroups | Physics/Dynamic/ShockPropagationSolver.cpp:87 | the two bodies end in the same group, one of their two groups, and every group stays among the existing ones |
| ShockPropagation.MarkStatic | Physics/Dynamic/ShockPropagationSolver.cpp:72-77 | the first loop marks every static-B manifold solved and collects exactly StaticIndices |
| ShockPropagation.MarkedStatic | Physics/Dynamic/ShockPropagationSolver.cpp:73-74 | marking changes only the solved flag, which is then set exactly when it was set or B is static |
| ShockPropagation.SolveRestingSlot | Physics/Dynamic/ShockPropagationSolver.cpp:137-141 | one slot of a resting entry changes only its three impulses and ends ready, clamped and pushing |
| ShockPropagation.SolveRestingEntry | Physics/Dynamic/ShockPropagationSolver.cpp:135-141 | every slot of a resting entry is solved that way |
| ShockPropagation.PreparedAllStaticAgain | Physics/Dynamic/ShockPropagationSolver.cpp:145-146 | preparing against body A twice gives what preparing once gives, so the per-point call to preSolve_static has the effect of one |
| ShockPropagation.PreparedAllStaticLifted | Physics/Dynamic/ShockPropagationSolver.cpp:143-150 | preparing an entry with points against a dynamic body A leaves it lifted: unsolved, ready, with its accumulated impulses |
| ShockPropagation.SolvedStep | Physics/Dynamic/ShockPropagationSolver.cpp:135-151 | solving one more graph entry extends the solved prefix |
| ShockPropagation.Unreached | Physics/Dynamic/ShockPropagationSolver.cpp:135-151 | an entry not yet reached still holds what the graph was built with |
| ShockPropagation.StillStep | Physics/Dynamic/ShockPropagationSolver.cpp:135-151 | solving one entry moves only its body A |
| ShockPropagation.SettledCarried | Physics/Dynamic/ShockPropagationSolver.cpp:154-158 | manifolds settled by Solver::solve keep their dynamic bodies and ready, clamped slots |
| ShockPropagation.PropagatedClamped | Physics/Dynamic/ShockPropagationSolver.cpp:130-152 | clamped manifolds stay clamped through shock propagation |
| ShockPropagation.StillJoin | Physics/Dynamic/ShockPropagationSolver.cpp:135-151 | the two loops together move only the A bodies of graph entries |
| ShockPropagation.SolvedKept | Physics/Dynamic/ShockPropagationSolver.cpp:135-151 | the solve keeps every manifold's pairing and points, and leaves manifolds out of the graph untouched |
| ShockPropagation.PairedFrom | Physics/Dynamic/ShockPropagationSolver.cpp:130-152 | every manifold after the solve is the one it began as or its swap |
| ShockPropagation.RestsFrom | Physics/Dynamic/ShockPropagationSolver.cpp:130-152 | every later graph entry still rests on an earlier one after the solve |
| ShockPropagation.SlotsFrom | Physics/Dynamic/ShockPropagationSolver.cpp:135-151 | the slot records after the solve are as SlotsAfter says |
| ShockPropagation.InfoCarried | Physics/Dynamic/ShockPropagationSolver.cpp:68-128 | building the graph leaves every slot record as it was |
| ShockPropagation.StaticSettled | Physics/Dynamic/ShockPropagationSolver.cpp:135-142 | entries on static bodies end solved, clamped and pushing |
| ShockPropagation.LiftedCarried | Physics/Dynamic/ShockPropagationSolver.cpp:143-151 | later entries keep their accumulated impulses and, with points, end unsolved and ready |
| ShockPropagation.PropagatedFrom | Physics/Dynamic/ShockPropagationSolver.cpp:130-152 | a layered graph solved entry by entry gives the Propagated state |
| ShockPropagation.GraphEntriesReady | Physics/Dynamic/ShockPropagationSolver.cpp:135-150 | entries on static bodies are ready to solve and later entries have a dynamic body A |
| ShockPropagation.ShockPropagationSolver.constructor | Physics/Dynamic/ShockPropagationSolver.cpp:5-9 | a new solver has shock propagation on, the Solver defaults and an empty graph |
| ShockPropagation.ShockPropagationSolver.SetEnableShockPropagation | Physics/Dynamic/ShockPropagationSolver.cpp:16-19 | sets the switch |
| ShockPropagation.ShockPropagationSolver.Solve | Physics/Dynamic/ShockPropagationSolver.cpp:154-159 | after the Solver passes, and the propagation when switched on, every manifold is clamped; switched off, every manifold is settled as Solver::solve leaves it |
| ShockPropagation.ShockPropagationSolver.ComputeGraph | Physics/Dynamic/ShockPropagationSolver.cpp:68-128 | the graph built is layered: static manifolds first, in order, each later entry dynamic and resting on an earlier one, no entry twice, every manifold the original or its swap |
| ShockPropagation.ShockPropagationSolver.CollectStatic | Physics/Dynamic/ShockPropagationSolver.cpp:70-78 | the graph becomes StaticIndices and exactly the static-B manifolds are marked solved |
| ShockPropagation.ShockPropagationSolver.SolveLiftedEntry | Physics/Dynamic/ShockPropagationSolver.cpp:144-150 | an entry with points is prepared against its body A and lifted; one without points is untouched |
| ShockPropagation.ShockPropagationSolver.SolveResting | Physics/Dynamic/ShockPropagationSolver.cpp:135-142 | the first loop rests every static entry and moves only their A bodies |
| ShockPropagation.ShockPropagationSolver.SolveLifted | Physics/Dynamic/ShockPropagationSolver.cpp:143-151 | the second loop lifts every later entry and moves only their A bodies |
| ShockPropagation.ShockPropagationSolver.SolveShockPropagation | Physics/Dynamic/ShockPropagationSolver.cpp:130-152 | the manifolds end Propagated against those it began with, and only the A bodies of graph entries move |
| ShockPropagation.ShockPropagationSolver.Layer | Physics/Dynamic/ShockPropagationSolver.cpp:84-124 | one layer keeps the graph layered, only appends to it, and every entry it adds consumes an unsolved manifold |
| ShockPropagation.LayerStep | Physics/Dynamic/ShockPropagationSolver.cpp:85-123 | one manifold's step keeps the graph layered and appends at most that manifold |
| Worlds.Timed | Physics/PhysicsWorld.cpp:128-140 | setting one group's counter changes that counter only |
| Worlds.SleepTick | Physics/PhysicsWorld.cpp:128-136 | the source's steps for a slow body (count the default counter up, then lower the larger counter to the smaller) give Ticked, leave the two counters equal, keep every awake flag, and touch no other group, whether or not the body's two groups are the same |
| Worlds.SettleStep | Physics/PhysicsWorld.cpp:149-160 | for an enabled dynamic body the default group takes the current group's counter and is awake exactly when that counter is below sleepTime; every other group, and every group for any other body, is unchanged |
| Worlds.SleepPassCounted | Physics/PhysicsWorld.cpp:121-146 | the first pass never makes a counter negative |
| Worlds.SettlePassCounted | Physics/PhysicsWorld.cpp:147-162 | the second pass never makes a counter negative |
| Worlds.SleepStepBounded | Physics/PhysicsWorld.cpp:123-141 | one body raises no group's counter by more than one |
| Worlds.SleepPassBounded | Physics/PhysicsWorld.cpp:121-146 | the first pass over k bodies raises no counter by more than k |
| Worlds.SettlePassKeeps | Physics/PhysicsWorld.cpp:147-162 | a group that is the default group of no enabled dynamic body among those passed is unchanged by the second pass |
| Worlds.RowExact | Physics/PhysicsWorld.cpp:172-179 | the pairs enumerated for body i are exactly (i, j) for the later enabled bodies j with at least one of the two dynamic |
| Worlds.PairsExact | Physics/PhysicsWorld.cpp:168-180 | the pairs enumerated for the first i bodies are exactly the pairs a < b with a < i, both enabled and at least one dynamic |
| Worlds.RowIncreasing | Physics/PhysicsWorld.cpp:172-179 | one body's pairs come in increasing order of the partner |
| Worlds.PairsAscending | Physics/PhysicsWorld.cpp:168-180 | the pairs come in lexicographic order, the first body before the second |
| Worlds.PairsOnce | Physics/PhysicsWorld.cpp:168-180 | no pair of bodies is walked twice, in either order |
| Worlds.WalksFromPairs | Physics/PhysicsWorld.cpp:177 | every visit comes from the tree walk of one enumerated pair |
| Worlds.PairsNext | Physics/PhysicsWorld.cpp:168-171 | moving to the next body appends its row, or nothing when it is disabled |
| Worlds.PairsWithin | Physics/PhysicsWorld.cpp:168-180 | every enumerated pair names bodies of the list |
| Worlds.WalksAppend | Physics/PhysicsWorld.cpp:177 | walking one more pair appends its tree walk to the visits |
| Worlds.SideOf | Physics/PhysicsWorld.cpp:183-190 | the broad-phase view of a body has one box per shape |
| Worlds.Sides | Physics/PhysicsWorld.cpp:168-180 | one view per body |
| Worlds.SideAt | Physics/PhysicsWorld.cpp:168-180 | view k is the view of body k |
| Worlds.SoundRooted | Physics/PhysicsWorld.cpp:183-190 | the trees of sound bodies are rooted, so the walk can start at the root |
| Worlds.SoundSides | Physics/PhysicsWorld.cpp:168-190 | views and keys line up body by body |
| Worlds.RowWalked | Physics/PhysicsWorld.cpp:172-179 | stepping to the next partner appends its tree walk exactly when the pair collides |
| Worlds.Collisions | Physics/PhysicsWorld.cpp:165-181 | the visits of _updateCollisions are the tree walks of the enumerated pairs, in order |
| Worlds.CollideRow | Physics/PhysicsWorld.cpp:172-179 | the inner loop appends the walks of body i's row |
| Worlds.CollidePair | Physics/PhysicsWorld.cpp:173-178 | the two bodies' trees are walked, appended after the earlier walks, exactly when both are enabled and one of them is dynamic; nothing is added otherwise |
| Worlds.CollideAll | Physics/PhysicsWorld.cpp:168-180 | the outer loop gives the walks of all enumerated pairs |
| Worlds.Keys | Physics/PhysicsWorld.cpp:121-162 | one key per body |
| Worlds.KeyAt | Physics/PhysicsWorld.cpp:121-162 | key k is the key of body k |
| Worlds.Erase | Physics/PhysicsWorld.cpp:113-116 | erasing index i drops exactly that element and shifts the later ones down |
| Worlds.StaleIndexErasesWrongBody | Physics/Bodies/Body.cpp:26-32 | as written, on a body list whose stored indices are 0, 1, 2, destroying body 0 and then body 1 erases position 1, which now holds body 2, and leaves body 1 in the world |
| Worlds.OwnedErase | Physics/PhysicsWorld.cpp:113-116 | erasing a body keeps each remaining body's parts its own |
| Worlds.DistinctErase | Physics/PhysicsWorld.cpp:113-116 | erasing keeps the bodies distinct |
| Worlds.SoundErase | Physics/PhysicsWorld.cpp:113-116 | erasing keeps every remaining body sound |
| Worlds.GroupedErase | Physics/PhysicsWorld.cpp:113-116 | erasing keeps every group index in range and every mass non-negative |
| Worlds.OwnedAppend | Physics/PhysicsWorld.cpp:107-111 | adding a body with its own rotation and tree and no shapes keeps ownership |
| Worlds.GroupedAppend | Physics/PhysicsWorld.cpp:107-111 | adding a body with a fresh group keeps every group index in range |
| Worlds.MassedWeighted | Physics/PhysicsWorld.cpp:102 | non-negative masses satisfy the solver's weight requirement on an empty contact list |
| Worlds.SoundAppend | Physics/PhysicsWorld.cpp:107-111 | adding a sound body with an empty tree keeps the list sound |
| Worlds.WorldAppend | Physics/PhysicsWorld.cpp:107-111 | registering a fresh body with a fresh group keeps the world invariant |
| Worlds.WorldErase | Physics/PhysicsWorld.cpp:113-116 | erasing a body keeps the world invariant |
| Worlds.KeysGrouped | Physics/PhysicsWorld.cpp:121-162 | keys of grouped bodies name groups of the list |
| Worlds.SleepBody | Physics/PhysicsWorld.cpp:123-145 | one body's first-pass step gives SleepStep's counters; an enabled body that is not dynamic has its contacts moved to its previous contacts and its current contacts emptied, any other body keeps both lists |
| Worlds.SleepAll | Physics/PhysicsWorld.cpp:121-146 | the first loop gives SleepPass over all the bodies |
| Worlds.Poses | Physics/PhysicsWorld.cpp:147-162 | one pose per body |
| Worlds.PoseAt | Physics/PhysicsWorld.cpp:147-162 | pose k is the pose of body k |
| Worlds.PosesAll | Physics/PhysicsWorld.cpp:147-162 | every pose is its body's pose |
| Worlds.Wake | Physics/PhysicsWorld.cpp:152-156 | an awake body takes the Moved pose, its shapes are placed at its new position and rotation, and its tree refreshed |
| Worlds.SettleBody | Physics/PhysicsWorld.cpp:149-160 | one body's second-pass step gives SettleStep's counters and SettledPose's pose, placing shapes and refreshing the tree when awake |
| Worlds.SettleOne | Physics/PhysicsWorld.cpp:149-160 | the step moves that body only |
| Worlds.SettleAt | Physics/PhysicsWorld.cpp:149-160 | the poses after the step are the old ones with entry k settled |
| Worlds.SettledPoses | Physics/PhysicsWorld.cpp:147-162 | one settled pose per body passed |
| Worlds.SettledPoseAt | Physics/PhysicsWorld.cpp:147-162 | pose j is settled against the groups as the pass left them when it reached body j |
| Worlds.SettledPosesNext | Physics/PhysicsWorld.cpp:147-162 | settling one more body extends the settled prefix |
| Worlds.SettleNext | Physics/PhysicsWorld.cpp:148-161 | one loop step extends the counters and the poses by one body |
| Worlds.GroupedPoses | Physics/PhysicsWorld.cpp:147-162 | bodies name groups of the list exactly when their poses do |
| Worlds.KeysMatch | Physics/PhysicsWorld.cpp:121-162 | each body's key and pose agree on its groups |
| Worlds.SettledPosesIn | Physics/PhysicsWorld.cpp:147-162 | settled poses still name groups of the list |
| Worlds.SettleAll | Physics/PhysicsWorld.cpp:147-162 | the second loop gives SettlePass's counters and SettledPoses's poses |
| Worlds.SettleList | Physics/PhysicsWorld.cpp:147-162 | the same from the bodies' own keys and poses, keeping groups in range and counters non-negative |
| Worlds.MergeRounds | Physics/PhysicsWorld.cpp:103-104 | the bodies' current groups become MergeRoundsOf the old ones: n successive rounds of updateCollisionGroups over the manifolds, none when n is not positive |
| Worlds.SolveGrouped | Physics/PhysicsWorld.cpp:102 | solve() keeps group indices in range and leaves every manifold clamped |
| Worlds.Below | Physics/PhysicsWorld.cpp:121-162 | exactly the indices of a list of n groups |
| Worlds.PhysicsWorld.constructor | Physics/PhysicsWorld.cpp:11-19 | a new world has the given gravity, damping 0.99, sleep time 60, sleep speeds 0.1 and 150 group iterations, no bodies and a default solver |
| Worlds.PhysicsWorld.AddBody | Physics/PhysicsWorld.cpp:107-111 | appends the body and returns its position |
| Worlds.PhysicsWorld.NewBody | Physics/Bodies/Body.cpp:9-24 | a new body is appended with its own fresh group as default and current group, enabled, with mass 1 and no shapes, indexed by its position |
| Worlds.PhysicsWorld.Register | Physics/Bodies/Body.cpp:11-14 | a prepared body and a fresh group are appended, keeping the world invariant |
| Worlds.PhysicsWorld.RemoveBody | Physics/PhysicsWorld.cpp:113-116 | erases the body at the index, keeping the world invariant |
| Worlds.PhysicsWorld.DestroyBodyAsWritten | Physics/Bodies/Body.cpp:26-32 | as written, the body list loses the entry at the body's creation index |
| Worlds.PhysicsWorld.DestroyBody | Physics/Bodies/Body.cpp:26-32 | the destroyed body leaves the world and every other body stays |
| Worlds.PhysicsWorld.SleepBodies | Physics/PhysicsWorld.cpp:121-146 | the world's groups become SleepPass over the bodies' keys read before the pass; the keys are unchanged; enabled non-dynamic bodies roll their contacts over and the others keep theirs |
| Worlds.PhysicsWorld.SleepContacts | Physics/PhysicsWorld.cpp:121-146 | the first pass computed on a copy of the counters, non-negative |
| Worlds.PhysicsWorld.SettleBodies | Physics/PhysicsWorld.cpp:147-162 | the world's groups become SettlePass and its bodies' poses SettledPoses, both from the keys and poses before the pass |
| Worlds.PhysicsWorld.SettleMotion | Physics/PhysicsWorld.cpp:147-162 | the second pass computed on a copy of the counters, non-negative |
| Worlds.PhysicsWorld.UpdateCollisions | Physics/PhysicsWorld.cpp:165-181 | the current manifolds become the previous ones, the container then holds exactly the manifolds the narrow phase detected, and the visits are the tree walks of the enumerated body pairs, in order |
| Worlds.PhysicsWorld.ClearContacts | Physics/PhysicsWorld.cpp:167 | deleteAllContacts on the world's container |
| Worlds.PhysicsWorld.Update | Physics/PhysicsWorld.cpp:97-105 | with dt above EPS, the previous manifolds are the ones held before the step, the current ones are the detected manifolds with their body pairs kept and every accumulated impulse clamped, and the world invariant holds |
| Worlds.PhysicsWorld.UpdateBodies | Physics/PhysicsWorld.cpp:118-163 | the groups become SettlePass after SleepPass over the keys read before the step, the bodies' poses become SettledPoses against the counters after the first pass, and no mass changes |
| Worlds.PhysicsWorld.UpdateContacts | Physics/PhysicsWorld.cpp:101-104 | the previous manifolds are the old current ones, the detected manifolds keep their body pairs and end clamped, and the current groups are MergeRoundsOf the groups after solving, over countIterationsForCollisionGroups rounds |
| Worlds.PhysicsWorld.SolveStep | Physics/PhysicsWorld.cpp:102 | solve() keeps the invariant and every manifold's body pair, and leaves every accumulated impulse clamped |
| Worlds.PhysicsWorld.MergeStep | Physics/PhysicsWorld.cpp:103-104 | the current groups become MergeRoundsOf the old ones over countIterationsForCollisionGroups rounds, keeping the invariant |
| Worlds.PhysicsWorld.SetGroups | Physics/PhysicsWorld.cpp:121-162 | the world's counters are replaced, bodies' keys and poses unchanged |
| Faces.SlotOf | Physics/CollisionDetected/EPA.cpp:168-177 | the slot whose link is the given face, the first such, or -1 exactly when no slot links it |
| Faces.TetraLink | Physics/CollisionDetected/EPA.cpp:38-66 | every link of the starting tetrahedron names another of its four faces, which links back along the same edge run the other way |
| Faces.TetraClosed | Physics/Bodies/QuickHull.cpp:317-357 | both orientations of the starting tetrahedron are closed surfaces: every edge is shared with exactly the face that links it |
| Faces.PairRelinks | Physics/CollisionDetected/EPA.cpp:217-229 | one pairing step keeps every face well shaped, every written link between new faces sharing a corner, and leaves the faces before the first of the pair untouched |
| Faces.LinkBoth | Physics/Bodies/QuickHull.cpp:409-421 | linking two new faces to each other, where their corners match, keeps the relinking invariant |
| Gjk.Sign | Physics/CollisionDetected/GJK.cpp:71-78 | sign is 1 exactly from EPS on and 0 otherwise, never -1 |
| Gjk.IsNull | Physics/CollisionDetected/GJK.cpp:89-98 | true exactly when every component is within EPS of zero |
| Gjk.IsNull2 | Physics/CollisionDetected/GJK.cpp:80-87 | the same test on the two components of a Vector2 |
| Gjk.NullIsEqualZero | Physics/CollisionDetected/GJK.cpp:89-98 | a vector is null exactly when Vector3::equal calls it equal to zero, and then its squared length is at most 3 EPS^2 |
| Gjk.NullInPlane | Physics/CollisionDetected/GJK.cpp:80-98 | the Vector2 test agrees with the Vector3 test on the vector with z = 0 |
| Gjk.Support | Physics/CollisionDetected/GJK.cpp:339-345 | the value returned bounds every vertex difference of the two shapes along the direction; when both shapes have vertices above the sentinel the vertex is one such difference and attains the value |
| Gjk.Foot | Physics/CollisionDetected/GJK.cpp:347-366 | the foot lies on the line and is orthogonal to its direction |
| Gjk.FootOrthogonal | Physics/CollisionDetected/GJK.cpp:357-359 | the parameter the source computes puts the point on the line orthogonal to the direction |
| Gjk.PlaneFoot | Physics/CollisionDetected/GJK.cpp:420-424 | the plane foot is on the plane and parallel to the normal |
| Gjk.ParameterSigns | Physics/CollisionDetected/GJK.cpp:352-364 | the parameter is negative exactly when the origin is behind p1, and beyond 1 exactly when it is past p2 |
| Gjk.NearestEdge | Physics/CollisionDetected/GJK.cpp:347-366 | the answer is carried by corners of the edge: p1 alone before p1, p2 alone past p2, both corners in between |
| Gjk.NearestTwoEdges | Physics/CollisionDetected/GJK.cpp:368-387 | the answer is carried by at most two corners; before p1 it is p1 alone; past p2 it is the answer for the edge p2-p3 |
| Gjk.EdgesOfTriangle | Physics/CollisionDetected/GJK.cpp:389-433 | a triangle with a non-zero normal has three non-degenerate edges |
| Gjk.NormalRotates | Physics/CollisionDetected/GJK.cpp:389-433 | the normal of a triangle does not change when its corners are rotated |
| Gjk.NearestTriangle | Physics/CollisionDetected/GJK.cpp:389-433 | the answer is carried by corners of the triangle |
| Gjk.NearestSegment | Physics/CollisionDetected/GJK.cpp:100-131 | a segment shorter than EPS answers p1 alone, reached exactly when p1 is null; otherwise NearestEdge's point and corners, reached exactly when both corners are kept and the point is null |
| Gjk.ClampAgrees | Physics/CollisionDetected/GJK.cpp:110-130 | the clamping written out in nearestPoint for two corners is NearestEdge's, branch for branch |
| Gjk.NearestPointTriangle | Physics/CollisionDetected/GJK.cpp:133-153 | a triangle whose normal is shorter than EPS answers p1 alone; otherwise NearestTriangle's answer; the origin is reached exactly when the point is null |
| Gjk.SegmentOfOnePoint | Physics/CollisionDetected/GJK.cpp:100-131 | a segment of two equal corners answers that corner and reaches the origin only when it is null |
| Gjk.SegmentSymmetric | Physics/CollisionDetected/GJK.cpp:100-131 | on a segment of length at least EPS, swapping the corners finds the same point |
| Gjk.FootUnique | Physics/CollisionDetected/GJK.cpp:347-366 | only one point of a line is orthogonal to its direction |
| Gjk.LagrangeIdentity | Physics/CollisionDetected/GJK.cpp:389-433 | the squared lengths of two vectors multiply to their squared dot product plus the squared length of their cross product |
| Epa.FirstEqual | Physics/CollisionDetected/EPA.cpp:103-110 | the first stored vertex equal to the point within EPS, with none equal before it, or -1 exactly when none is equal |
| Epa.FirstEqualAppended | Physics/CollisionDetected/EPA.cpp:103-110 | after a point is stored, looking it up again finds it at its new index, so _addVertex stores a point at most once |
| Epa.FirstIsFirst | Physics/CollisionDetected/EPA.cpp:103-110 | the first equal vertex is what the lookup answers |
| Epa.FirstNone | Physics/CollisionDetected/EPA.cpp:103-110 | no equal vertex gives -1 |
| Epa.VisibleBelowPlane | Physics/CollisionDetected/EPA.cpp:112-119 | for a face whose plane passes through its first corner, the new vertex is not in front exactly when its distance along the normal is at most the face's |
| Epa.PlaneDistanceOfUnit | Physics/CollisionDetected/EPA.cpp:121-136 | with a unit normal the stored plane offset is the first corner's distance along it |
| Epa.DirectedFace | Physics/CollisionDetected/EPA.cpp:121-136 | a direction longer than EPS, divided by its length, is a unit normal pointing the same way, and the stored offset is the corner's distance along it |
| Epa.CornerFace | Physics/CollisionDetected/EPA.cpp:138-159 | the normal built from two edges and divided by its length is a unit vector, and all three corners lie on the stored plane |
| Epa.Epa.constructor | Physics/CollisionDetected/EPA.cpp:6-20 | a new run starts with no vertices and no faces |
| Epa.Epa.AddVertex | Physics/CollisionDetected/EPA.cpp:103-110 | returns the first stored vertex equal to the point and stores nothing, or appends the point and returns its index; the vertex at the index is equal to the point |
| Epa.Epa.CheckValidTriangle | Physics/CollisionDetected/EPA.cpp:112-119 | only face t's valid flag changes, and it becomes whether the new vertex is not in front of it |
| Epa.Epa.AddTriangleDir | Physics/CollisionDetected/EPA.cpp:121-136 | a direction no longer than EPS adds nothing; a longer one appends one face with the unit normal and the plane through the first corner, earlier faces unchanged |
| Epa.Epa.AddTriangle | Physics/CollisionDetected/EPA.cpp:138-159 | always appends one face, earlier faces unchanged, slots 1 and 2 unlinked; with non-collinear corners its unit normal is the normalised cross product of the edges and all three corners lie on its plane; with collinear corners (the commented-out length guard) it gets a distance not below MAX_NUMBER, so the nearest-face search never picks it |
| Epa.Epa.SetJoinedTriangles | Physics/CollisionDetected/EPA.cpp:161-166 | only face t's three links change, to the given ones |
| Epa.Epa.FindNearestFace | Physics/CollisionDetected/EPA.cpp:239-250 | -1 exactly when no face is nearer than MAX_NUMBER; otherwise a face of least distance, the first such |
| Epa.Epa.Retire | Physics/CollisionDetected/EPA.cpp:209-210 | only the expanded face changes: it is stamped with the current iteration and its distance becomes at least MAX_NUMBER, so FindNearestFace never picks it again |
| Epa.Epa.Pair | Physics/CollisionDetected/EPA.cpp:217-229 | one step of the pairing loop, as Paired says |
| Epa.Epa.PairNewTriangles | Physics/CollisionDetected/EPA.cpp:215-236 | true exactly when every new face ends with both new-edge slots linked; every link written joins two new faces that share a corner, and no face is added or removed |
| Narrow.Dispatch | Physics/PhysicsWorld.cpp:226-292 | a pair of shapes is skipped exactly when either kind is undefined |
| Narrow.DispatchTyped | Physics/PhysicsWorld.cpp:226-292 | every pair of defined kinds reaches the routine whose parameters have exactly those kinds, reversed when the routine declares them the other way |
| Narrow.DispatchSymmetric | Physics/CollisionDetected/CollisionDetected.cpp:81-84 | both orders of a pair reach the same routine, and for two different kinds exactly one of them reverses the shapes |
| Narrow.SeparatedGap | Physics/CollisionDetected/CollisionDetected.cpp:93-101 | the gate passes exactly when the closest vector is no longer than the radius and its length exceeds EPS |
| Narrow.SeparatedGapFacts | Physics/CollisionDetected/CollisionDetected.cpp:93-101 | a gap that passes has a unit normal along the closest vector and a depth in [0, r) |
| Narrow.SphereSphereContact | Physics/CollisionDetected/CollisionDetected.cpp:15-33 | a contact exactly when the squared centre distance is at least EPS and at most the squared radius sum; the manifold takes sphere B first |
| Narrow.SphereSphereFacts | Physics/CollisionDetected/CollisionDetected.cpp:15-33 | the normal is the unit vector from A's centre to B's, the depth lies in [0, rA + rB), each point is on its own sphere's surface, and the points are depth apart along the normal |
| Narrow.AxisParameterClosest | Physics/CollisionDetected/CollisionDetected.cpp:41-66 | the clamped parameter lies on the axis segment and is the parameter of the segment nearest the projection |
| Narrow.AxisDistance | Physics/CollisionDetected/CollisionDetected.cpp:41-48 | with a unit axis, the squared distance to the axis point at u is (u - proj)^2 plus a part that does not depend on u |
| Narrow.AxisPointClosest | Physics/CollisionDetected/CollisionDetected.cpp:41-66 | the axis point the routine measures from is the point of the axis segment nearest the sphere's centre |
| Narrow.CapsuleSphereAsWritten | Physics/CollisionDetected/CollisionDetected.cpp:35-79 | as written: a miss exactly when the squared distance to the axis point exceeds the squared radius sum; otherwise, with a zero distance, the normal is zero divided by zero |
| Narrow.CapsuleSphereContact | Physics/CollisionDetected/CollisionDetected.cpp:35-79 | with the guard of the sphere-sphere routine: a contact exactly when the squared distance is at least EPS and at most the squared radius sum, never zero over zero; the capsule goes first |
| Narrow.CapsuleSphereOnAxis | Physics/CollisionDetected/CollisionDetected.cpp:45-51 | a sphere centred on the capsule's axis segment makes the code as written divide zero by zero, while the guarded routine reports no contact |
| Narrow.CapsuleSphereFacts | Physics/CollisionDetected/CollisionDetected.cpp:45-78 | a guarded contact has a unit normal from the sphere's centre to the axis point, a depth in [0, rs + rc), its first point on the capsule and its second on the sphere, depth apart against the normal |
| Narrow.ProbeGap | Physics/CollisionDetected/CollisionDetected.cpp:286-299 | overlapping shapes take EPA's normal reversed and the radius minus EPA's depth; shapes apart pass exactly when the closest vector is within the radius and longer than EPS |
| Narrow.HullCapsuleGap | Physics/CollisionDetected/CollisionDetected.cpp:389-406 | the gate of hull against capsule passes exactly when the shapes overlap or the closest vector is within the radius and longer than EPS |
| Narrow.HullCapsuleGapAgrees | Physics/CollisionDetected/CollisionDetected.cpp:389-406 | its two negations cancel, so hull against capsule gates and orients exactly as hull against sphere does |
| Narrow.Oriented | Physics/CollisionDetected/CollisionDetected.cpp:300-317 | the hull's body goes second exactly when it is not dynamic |
| Narrow.HullSphereContact | Physics/CollisionDetected/CollisionDetected.cpp:280-318 | a contact exactly when the gate passes |
| Narrow.HullSphereOrientation | Physics/CollisionDetected/CollisionDetected.cpp:300-317 | whichever body goes first, the sphere's point is at the radius along the gap's normal, the normal points from the first body's side, the first point lies depth behind the second, and the depth is the gap's |
| Narrow.HullHullNormal | Physics/CollisionDetected/CollisionDetected.cpp:808-817 | contacts are made exactly when GJK finds the hulls overlapping, and the manifold's normal is EPA's reversed |
| Narrow.VertexInPolygon | Physics/CollisionDetected/CollisionDetected.cpp:326-341 | the loop answers true exactly when the point is more than EPS inside every edge, the closing edge included |
| Narrow.CornerNotInside | Physics/CollisionDetected/CollisionDetected.cpp:326-341 | no corner of a polygon passes the test against its own polygon |
| Narrow.FirstMaxUnique | Physics/CollisionDetected/CollisionDetected.cpp:742-763 | there is only one first largest score |
| Narrow.ReferencePolygon | Physics/CollisionDetected/CollisionDetected.cpp:742-763 | the polygon chosen is the first whose normal goes furthest along the direction |
| Narrow.SupportCorner | Physics/CollisionDetected/CollisionDetected.cpp:779-799 | -1 exactly when no corner scores above PE_MINNUMBERf; otherwise the first corner furthest along the direction |
| Narrow.TopTwo | Physics/CollisionDetected/CollisionDetected.cpp:478-494 | the first is the first furthest corner; the second is the furthest of the others, or -1 exactly when none of them scores above PE_MINNUMBERf |
| Narrow.HitsExactly | Physics/CollisionDetected/CollisionDetected.cpp:419-477 | the hit list holds exactly the passing positions below n, in increasing order |
| Narrow.HitsPrefix | Physics/CollisionDetected/CollisionDetected.cpp:419-477 | the hits below n begin the hits below any larger bound |
| Narrow.FaceContacts | Physics/CollisionDetected/CollisionDetected.cpp:419-477 | the contacts made are the first two candidates that pass, the capsule's two ends first, then the edges in order |
| Narrow.FarEndAsWritten | Physics/CollisionDetected/CollisionDetected.cpp:547-572 | as written, the end is accepted exactly when the squared distance between the points is at most the radius itself |
| Narrow.FarEnd | Physics/CollisionDetected/CollisionDetected.cpp:547-572 | the end is accepted exactly when the squared distance is at most the squared radius |
| Narrow.FarEndWithinRadius | Physics/CollisionDetected/CollisionDetected.cpp:547-572 | the corrected test accepts the end exactly when it is within the capsule's radius of the hull's point |
| Narrow.FarEndAsWrittenAcceptsFar | Physics/CollisionDetected/CollisionDetected.cpp:568 | with a radius below 1, the test as written accepts an end further than the radius (radius 0.5, distance 0.6), which the corrected test rejects |
| Narrow.FarEndAsWrittenMissesNear | Physics/CollisionDetected/CollisionDetected.cpp:568 | with a radius above 1, the test as written rejects an end within the radius (radius 2, distance 1.5), which the corrected test accepts |
| Narrow.CornerTouch | Physics/CollisionDetected/CollisionDetected.cpp:709-714 | the contact of a corner behind the other face has a non-negative depth |
| Narrow.ClippedExactly | Physics/CollisionDetected/CollisionDetected.cpp:707-717 | every contact listed comes from a corner behind the plane and inside the other face, projected onto the plane when the normal is a unit vector; every such corner gives one |
| Narrow.OnPlane | Physics/CollisionDetected/CollisionDetected.cpp:709-714 | moving a point back along a unit normal by its height puts it on the plane |
| Narrow.ClipCorners | Physics/CollisionDetected/CollisionDetected.cpp:707-717 | the loop returns exactly the contacts Clipped lists |
| Narrow.Exchanged | Physics/CollisionDetected/CollisionDetected.cpp:718-729 | each contact has its two points exchanged and keeps its depth |
| Narrow.PolygonCorners | Physics/CollisionDetected/CollisionDetected.cpp:707-729 | A's corners inside B's face, then B's corners inside A's face with the points exchanged |
| Narrow.EdgeTouch | Physics/CollisionDetected/CollisionDetected.cpp:685-691 | a contact is made exactly when collisionLinesOnPlane finds a crossing of the projected edge and the point at that parameter on the edge itself lies behind or on the other face's plane; the contact pairs that point with its projection along the manifold's normal, at a non-negative depth |
| Narrow.EdgeCrossingsExactly | Physics/CollisionDetected/CollisionDetected.cpp:677-706 | the edge loop keeps exactly the contacts that some edge of A (the closing edge from the last corner included) makes against some edge of B (the closing edge included) |
| Narrow.ClipEdges | Physics/CollisionDetected/CollisionDetected.cpp:677-706 | the nested loops, with the closing edge of B handled after the inner loop and the previous corner of A carried over, return exactly EdgeCrossings, edge of A by edge of A |
| Narrow.PolygonToPolygon | Physics/CollisionDetected/CollisionDetected.cpp:677-729 | the buffered contacts are the edge crossings, then A's corners inside B's face, then B's corners inside A's face with the points exchanged |
| QuickHulls.Shifted | Physics/Bodies/QuickHull.cpp:161-162 | every point moved by the same offset, in order, none lost |
| QuickHulls.SumShifted | Physics/Bodies/QuickHull.cpp:16-19 | the sum of points all moved by one offset is the old sum plus that offset once per point |
| QuickHulls.CentreShifted | Physics/Bodies/QuickHull.cpp:16-19 | the centre computed by qHull moves with the points: shifting every point shifts the centre by the same offset |
| QuickHulls.CentreOf | Physics/Bodies/QuickHull.cpp:16-19 | the accumulating loop yields the mean of the hull's points |
| QuickHulls.MaxDot | Physics/Bodies/QuickHull.cpp:33-40 | the largest projection on a direction bounds the projection of every point |
| QuickHulls.IsNullWithin | Physics/Bodies/QuickHull.cpp:90-93 | true exactly when every component's absolute value is below the hull's epsilon |
| QuickHulls.NullWithinIsShort | Physics/Bodies/QuickHull.cpp:90-93 | a vector _isNull accepts has squared length below three squared epsilons |
| QuickHulls.MaxDotAt | Physics/Bodies/QuickHull.cpp:33-40 | a point whose projection bounds all others attains the largest projection |
| QuickHulls.MaxDotTop | Physics/Bodies/QuickHull.cpp:33-40 | some point attains the largest projection |
| QuickHulls.ArgMaxDot | Physics/Bodies/QuickHull.cpp:131-139 | the scan returns the first point of largest projection, which only a strictly larger projection displaces, and that largest value |
| QuickHulls.FirstMaxUnique | Physics/Bodies/QuickHull.cpp:131-139 | the first point of largest projection and its value are unique, so the scan's answer is determined by the points |
| QuickHulls.ExtremePairAsWritten | Physics/Bodies/QuickHull.cpp:130-159 | as written the loop always breaks after the x scans: it reports success with the points of largest and smallest x, however close they are |
| QuickHulls.ExtremePair | Physics/Bodies/QuickHull.cpp:130-159 | as intended: the x pair when x spreads by the epsilon, otherwise the y pair when y does, and failure exactly when neither does; a reported pair is two distinct points |
| QuickHulls.PairDistinct | Physics/Bodies/QuickHull.cpp:150 | the points of largest projection along a direction and along its opposite differ when the projections spread by a positive epsilon |
| QuickHulls.ExtremePairCollapses | Physics/Bodies/QuickHull.cpp:130-159 | on three points with x = 0 the as-written pair is point 0 twice |
| QuickHulls.Marks | Physics/Bodies/QuickHull.cpp:276-280 | the used-marks of the flat case: a point is marked with its own index exactly when it is one of the three chosen, and -1 otherwise |
| QuickHulls.CountUsed | Physics/Bodies/QuickHull.cpp:62-67 | the count of marked points before a position never exceeds the position |
| QuickHulls.Kept | Physics/Bodies/QuickHull.cpp:62-67 | the points kept by the compaction number the marked entries |
| QuickHulls.MarksInBounds | Physics/Bodies/QuickHull.cpp:281-286 | the as-written copy stays in bounds only when the three chosen points include points 0, 1 and 2 |
| QuickHulls.FlatCopyOutOfBounds | Physics/Bodies/QuickHull.cpp:283 | on four points with the chosen points 0, 2 and 3, the as-written copy reads an index of -1 |
| QuickHulls.Compact | Physics/Bodies/QuickHull.cpp:60-67 | the compaction keeps the marked points in order and renumbers each marked entry to the position of its point among the kept ones, leaving unmarked entries alone |
| QuickHulls.RemapPolygons | Physics/Bodies/QuickHull.cpp:69-72 | every polygon keeps its normal and its corner count, and each corner is replaced by its new number |
| QuickHulls.RemappedCornerSamePoint | Physics/Bodies/QuickHull.cpp:60-72 | a corner renumbered by the compaction still names the same point |
| QuickHulls.TripleRotates | Physics/Bodies/QuickHull.cpp:317-321 | the triple product is unchanged by rotating its arguments and changes sign when two are swapped |
| QuickHulls.TripleShift | Physics/Bodies/QuickHull.cpp:317-321 | the orientation test taken relative to the first point equals the triple product of the points |
| QuickHulls.Corners | Physics/Bodies/QuickHull.cpp:322-325 | the corner lists of the stored triangles, one per triangle, in order |
| QuickHulls.Links | Physics/Bodies/QuickHull.cpp:327-338 | the link lists of the stored triangles, one per triangle, in order |
| QuickHulls.Mapped | Physics/Bodies/QuickHull.cpp:322-325 | each corner of a face pattern replaced by the chosen point it names, keeping the shape of every face |
| QuickHulls.MappedLink | Physics/Bodies/QuickHull.cpp:322-338 | renumbering corners keeps every link pointing at another face that shares the edge in the opposite direction |
| QuickHulls.MappedClosed | Physics/Bodies/QuickHull.cpp:322-356 | renumbering the corners of a closed surface leaves it closed under the same links |
| QuickHulls.TetraFacesInRange | Physics/Bodies/QuickHull.cpp:322-325 | both face patterns of the starting tetrahedron have four faces whose corners are among the four chosen points |
| QuickHulls.TetraDirs | Physics/Bodies/QuickHull.cpp:320-325 | the four outward directions of the starting tetrahedron's faces |
| QuickHulls.TetraStore | Physics/Bodies/QuickHull.cpp:309-357 | the starting tetrahedron's store has four triangles |
| QuickHulls.TetraUnjoined | Physics/Bodies/QuickHull.cpp:320-343 | the four triangles added before linking, one per face |
| QuickHulls.TetraStoreJoined | Physics/Bodies/QuickHull.cpp:327-356 | each stored face is the face as added with the links of its orientation written in |
| QuickHulls.TetraUnjoinedCases | Physics/Bodies/QuickHull.cpp:320-343 | the exact four triangles with their corners and directions in each of the two orientations |
| QuickHulls.TetraStoreFacts | Physics/Bodies/QuickHull.cpp:309-357 | the starting tetrahedron is a closed surface and every face direction points away from the opposite corner |
| QuickHulls.TetraStoreClosed | Physics/Bodies/QuickHull.cpp:317-357 | the stored corners and links are those of the face pattern of the chosen orientation, which is closed |
| QuickHulls.TetraStoreOriented | Physics/Bodies/QuickHull.cpp:320-343 | each face's direction has the fourth corner of the tetrahedron behind it |
| QuickHulls.QuickHull.constructor | Physics/Bodies/QuickHull.cpp:9 | a builder for the given hull with an empty store, no points and no polygons |
| QuickHulls.QuickHull.Begin | Physics/Bodies/QuickHull.cpp:9-20 | fails, changing nothing, exactly when the hull has fewer than three points; otherwise copies the points, empties the store, and sets the centre to their mean and the epsilon |
| QuickHulls.QuickHull.AddTempTriangleDir | Physics/Bodies/QuickHull.cpp:95-105 | appends one valid triangle with the given corners and direction, stamped with the current iteration |
| QuickHulls.QuickHull.AddTempTriangle | Physics/Bodies/QuickHull.cpp:107-121 | appends one valid, unlinked triangle whose direction is the cross product of its edges from the first corner, so it is normal to both |
| QuickHulls.QuickHull.Pair | Physics/Bodies/QuickHull.cpp:409-421 | one pairing step of two new triangles, as the store's pairing function states |
| QuickHulls.QuickHull.PairNewTriangles | Physics/Bodies/QuickHull.cpp:407-427 | pairs the new triangles keeping the relinking invariant and succeeds exactly when every new triangle ends with both side links set |
| QuickHulls.QuickHull.Farthest | Physics/Bodies/QuickHull.cpp:31-41 | the first point of largest projection on a triangle's direction, and whether it lies beyond the triangle's plane by more than the epsilon |
| QuickHulls.QuickHull.FormTetrahedron | Physics/Bodies/QuickHull.cpp:309-357 | resets the iteration and stores the starting tetrahedron, a closed surface whose faces point outward |
| QuickHulls.QuickHull.AddTetraFaces | Physics/Bodies/QuickHull.cpp:317-343 | adds the four faces of the orientation the fourth point decides |
| QuickHulls.QuickHull.SetJoins | Physics/Bodies/QuickHull.cpp:327-356 | writes the given links into every stored triangle, changing nothing else |
| QuickHulls.QuickHull.KeepFlatAsWritten | Physics/Bodies/QuickHull.cpp:271-291 | the flat case as written: its copy stays in bounds exactly when there are three points or the chosen three include 0, 1 and 2, and then keeps the three chosen points |
| QuickHulls.QuickHull.KeepFlat | Physics/Bodies/QuickHull.cpp:271-291 | the flat case as intended: the hull keeps exactly the three chosen points, in order |
| QuickHulls.QuickHull.FinishFlat | Physics/Bodies/QuickHull.cpp:294-306 | the flat hull gets the two opposite triangles over its three points, changing no points |
| QuickHulls.QuickHull.SetPolygons | Physics/Bodies/QuickHull.cpp:73 | the hull's polygons become the given ones, changing no points |
| QuickHulls.FlatCopyAsWritten | Physics/Bodies/QuickHull.cpp:281-286 | the as-written copy succeeds exactly when every target index is in bounds, and then holds the kept points |
| QuickHulls.FlatCopy | Physics/Bodies/QuickHull.cpp:281-286 | the corrected copy always holds the kept points, in order |
| QuickHulls.CopyPrefix | Physics/Bodies/QuickHull.cpp:289-290 | the first entries come from the copy and the rest are untouched |
| QuickHulls.KeptAt | Physics/Bodies/QuickHull.cpp:62-67 | a marked entry's point sits among the kept points at its count of earlier marks |
| QuickHulls.FlatKeepsChosen | Physics/Bodies/QuickHull.cpp:276-286 | each of the three chosen points is among those the flat case keeps |
| QuickHulls.KeptAllMarked | Physics/Bodies/QuickHull.cpp:271-273 | with exactly three points, all are chosen and kept unchanged |
| QuickHulls.FlatPolygons | Physics/Bodies/QuickHull.cpp:294-305 | two triangles over points 0, 1, 2 in opposite windings with opposite normals |
| QuickHulls.FlatNormalsOrthogonal | Physics/Bodies/QuickHull.cpp:295 | both normals of the flat hull are perpendicular to its two edges |
| QuickHulls.FlatNormalsUnit | Physics/Bodies/QuickHull.cpp:295-296 | both normals of the flat hull have unit length when the edges' cross product is not degenerate |
| QuickHulls.ChosenDistinctCount | Physics/Bodies/QuickHull.cpp:281-287 | three distinct chosen points give a flat hull of exactly three points |
| QuickHulls.TetraFacts | Physics/Bodies/QuickHull.cpp:317-343 | every face's direction takes the same sign against the opposite corner as the orientation test says |
| Contacts.Improve | Physics/Dynamic/ContactsContainer.cpp:164-181 | one comparison of the extreme scan: the point takes over exactly when its projection beats the running extreme |
| Contacts.Pick | Physics/Dynamic/ContactsContainer.cpp:152-154 | the buffered points named by a list of indices, in that order |
| Contacts.Upto | Physics/Dynamic/ContactsContainer.cpp:153 | the indices 0 to n-1 of the small case, in order |
| Contacts.Ordered | Physics/Dynamic/ContactsContainer.cpp:205-225 | the manifold after the head of compareContacts is still well formed; OrderedPutsStaticLast states what it is |
| Contacts.Matched | Physics/Dynamic/ContactsContainer.cpp:241-268 | the previous slot a slot matches is -1 or a slot of the previous manifold |
| Contacts.AdjustedAt | Physics/Dynamic/ContactsContainer.cpp:152-154 | the buffer after addContact has lowered the depth of the points added, one entry per buffered point |
| Contacts.PickSnoc | Physics/Dynamic/ContactsContainer.cpp:153-154 | adding one more index adds its point at the end |
| Contacts.AdjustedAtSnoc | Physics/Dynamic/ContactsContainer.cpp:153-154 | adding one more point, not added before, changes that buffer entry alone |
| Contacts.MergedGroups | Physics/Bodies/Body.cpp:346-353 | after one merge both bodies share one group, that of the body with the larger index, and every other body keeps its group |
| Contacts.MergePair | Physics/Bodies/Body.cpp:346-353 | merging two bodies of a list without repeats changes the groups as MergedGroups says and leaves the indices |
| Contacts.MergeFold | Physics/Dynamic/ContactsContainer.cpp:339-343 | one round of updateCollisionGroups keeps one group per body and leaves the last manifold's two bodies in one group |
| Contacts.MergeFoldWithin | Physics/Dynamic/ContactsContainer.cpp:339-343 | a round of merges only hands existing groups around: every group afterwards was some body's group before |
| Contacts.MergeFoldUntouched | Physics/Dynamic/ContactsContainer.cpp:339-343 | a body that no manifold names keeps its group through the round |
| Contacts.MergeRoundsOf | Physics/PhysicsWorld.cpp:103-104 | any number of rounds of updateCollisionGroups over the same manifolds keeps one group per body |
| Contacts.MergeRoundsWithin | Physics/PhysicsWorld.cpp:103-104 | however many rounds run, every group afterwards was some body's group before, and after at least one round the last manifold's bodies share a group |
| Contacts.PrevOr | Physics/Dynamic/ContactsContainer.cpp:239-240 | the previous manifold that was found, or a well-formed empty one standing for none |
| Contacts.Handed | Physics/Dynamic/ContactsContainer.cpp:250-251 | the summed linear impulse that body A receives is zero when no slot matched |
| Contacts.Toward | Physics/Dynamic/ContactsContainer.cpp:257-258 | body A receives the impulse itself and body B the opposite impulse, which adds to it to give zero |
| Contacts.SlotPushed | Physics/Dynamic/ContactsContainer.cpp:250-262 | one matched slot changes a body's linear velocity by its linear impulse, taken as this body receives it, times the inverse mass |
| Contacts.Pushed | Physics/Dynamic/ContactsContainer.cpp:241-274 | the four velocities after every matched slot among the first n has pushed them; with no match they are unchanged |
| Contacts.PushedBalanced | Physics/Dynamic/ContactsContainer.cpp:250-262 | the whole warm start between two dynamic bodies conserves linear momentum: the mass-weighted changes of the two linear velocities sum to zero |
| Contacts.BalancedPushes | Physics/Dynamic/ContactsContainer.cpp:251-258 | pushes by an impulse and by its opposite, over the two masses, change the momenta by amounts that cancel |
| Contacts.Accumulates | Physics/Dynamic/ContactsContainer.cpp:250-262 | two pushes in turn are one push by the summed impulse, for either body, and a push by nothing changes nothing |
| Contacts.ContactsContainer.AddEach | Physics/Dynamic/ContactsContainer.cpp:152-154 | after the small-case loop the manifold holds every buffered point, in order, and every buffered depth has been lowered |
| Contacts.ContactsContainer.AddNext | Physics/Dynamic/ContactsContainer.cpp:153-154 | one pass of the small-case loop adds buffered point k after the first k |
| Contacts.ContactsContainer.AddSlot | Physics/Dynamic/ContactsContainer.cpp:184-192 | one pass of the large-case loop adds extreme i exactly when no later extreme is the same point |
| Contacts.ContactsContainer.AddCandidate | Physics/Dynamic/ContactsContainer.cpp:154 | one addContact call adds point k, not added before, after those already added, and lowers its buffered depth |
| Contacts.ContactsContainer.WarmNext | Physics/Dynamic/ContactsContainer.cpp:242-274 | one pass of the warm-start loop moves the manifold, both counters and all four velocities of both bodies from the first i slots to the first i+1; a static B keeps its velocities |
| Contacts.ContactsContainer.WarmSlots | Physics/Dynamic/ContactsContainer.cpp:241-310 | the warm-start loop moves the manifold, both counters and all four velocities of both bodies to their values after every used slot; a static B keeps its velocities |
| ShockPropagation.SettledPairsKept | Physics/Dynamic/Solver.cpp:260-268 | manifolds that Solver::solve has settled still pair the same bodies |
| ShockPropagation.PropagatedPairsKept | Physics/Dynamic/ShockPropagationSolver.cpp:154-159 | shock propagation at most turns a manifold round, so the two steps of solve() together keep every pair of bodies |
| ShockPropagation.ShockPropagationSolver.Propagate | Physics/Dynamic/ShockPropagationSolver.cpp:157-158 | after the base solve, propagation keeps the number of manifolds and their pairs, leaves every manifold clamped, and keeps the groups among the existing ones |
| ShockPropagation.ShockPropagationSolver.LiftedStep | Physics/Dynamic/ShockPropagationSolver.cpp:143-150 | one pass of the second loop solves graph entry i against its body A and moves no other body |
| ShockPropagation.ShockPropagationSolver.SolveEntries | Physics/Dynamic/ShockPropagationSolver.cpp:133-150 | the two loops over the built graph leave the manifolds Propagated and move only the A bodies of graph entries, in both velocity kinds |
| ShockPropagation.ShockPropagationSolver.SolveGraph | Physics/Dynamic/ShockPropagationSolver.cpp:133-150 | the same on a copy of the manifold list: it ends Propagated and only the A bodies of graph entries move |
| ShockPropagation.ShockPropagationSolver.StoreLayer | Physics/Dynamic/ShockPropagationSolver.cpp:84-127 | the manifolds and the graph become the layered copies the pass built |
| Solvers.Solver.PreSolveStep | Physics/Dynamic/Solver.cpp:203-218 | one pass of the preSolve loop prepares manifold i and extends the prepared prefix; only manifold i's bodies move and groups stay among the existing ones |
| Solvers.Solver.ContactStep | Physics/Dynamic/Solver.cpp:225-238 | one pass of the solveContacts loop solves manifold i and extends the solved prefix under the same guarantees |
| Solvers.Solver.PseudoStep | Physics/Dynamic/Solver.cpp:245-256 | one pass of the solvePseudoContacts loop solves manifold i's pseudo-impulses and extends the solved prefix under the same guarantees |
| Solvers.Solver.ContactPassAgain | Physics/Dynamic/Solver.cpp:264-265 | one more velocity pass is recorded, keeps every manifold settled, and leaves untouched and immovable bodies' velocities as they were |
| Solvers.Solver.PseudoPassAgain | Physics/Dynamic/Solver.cpp:266-267 | one more pseudo pass is recorded, leaves every manifold settled and pushing, and leaves untouched bodies' pseudo velocities as they were |
| Worlds.Ticked | Physics/PhysicsWorld.cpp:128-136 | a slow body's counters, one per group; SleepTick proves the source's steps give them |
| Worlds.Reset | Physics/PhysicsWorld.cpp:137-140 | a moving body's two counters restart from zero, one counter per group |
| Worlds.SleepStep | Physics/PhysicsWorld.cpp:123-141 | the first-pass step for one body, one counter per group; SleepStepBounded bounds it |
| Worlds.SleepPass | Physics/PhysicsWorld.cpp:121-146 | the first pass over the first k bodies, one counter per group; SleepPassCounted and SleepPassBounded state its properties |
| Worlds.SettlePass | Physics/PhysicsWorld.cpp:147-162 | the second pass over the first k bodies, one counter per group; SettlePassCounted and SettlePassKeeps state its properties |
| Worlds.CurrentBelow | Physics/PhysicsWorld.cpp:103-104 | groups taken from a list of groups in range leave every body grouped in range |
| Worlds.Masses | Physics/PhysicsWorld.cpp:147-162 | one inverse mass per pose |
| Worlds.SettledMasses | Physics/PhysicsWorld.cpp:147-162 | the second pass keeps the inverse mass of every body it passes |
| Worlds.SettledMassesAll | Physics/PhysicsWorld.cpp:147-162 | the second pass over all bodies keeps every inverse mass |
| Worlds.MassesAt | Physics/PhysicsWorld.cpp:147-162 | entry j of the masses of the bodies' poses is body j's inverse mass |
| Worlds.MassAt | Physics/PhysicsWorld.cpp:147-162 | entry j of the masses is pose j's inverse mass |
| Worlds.DetectedMassed | Physics/PhysicsWorld.cpp:226-292 | manifolds detected among the bodies pair bodies whose inverse masses make A dynamic |
| Worlds.MassedDetected | Physics/PhysicsWorld.cpp:226-292 | conversely, well-formed manifolds between distinct bodies of the list whose masses make A dynamic are detected among them |
| Worlds.StaleIndexScenario | Physics/Bodies/Body.cpp:26-32 | on a world built by three NewBody calls, destroying the first and then the second body as written leaves the second registered and drops the third |
| Worlds.PhysicsWorld.SolveAndMerge | Physics/PhysicsWorld.cpp:102-104 | solve and the merge rounds keep the invariant, every manifold's pair and clamped slots, and the groups end as countIterationsForCollisionGroups rounds of merges from the groups the solve left |
| Worlds.PhysicsWorld.Receive | Physics/PhysicsWorld.cpp:165-181 | the narrow-phase manifolds, each between two bodies of the list with a dynamic A, become the container's manifolds, keeping the invariant |
| Rotation.VectorRotatedHomogeneous | Physics/VectorMath/RotationMatrix.h:45-48 | vectorRotated of a multiple of a vector is the same multiple of its image, so with additivity it is linear |
| BoundsBox.Collision | Physics/Bodies/Shape.h:41-48 | two boxes collide exactly when their closed intervals touch on all three axes |
| BoundsTrees.BoundsTree.constructor | Physics/Bodies/BoundsTrees.h:32 | a new tree has no nodes and is valid |

## Left out

- Floating-point rounding: everything is over `real`, and `PE_MAXNUMBERf` is a large real sentinel. Accuracy, convergence and whole-simulation outcomes are not stated.
- `std::sqrt` and `rotateAroundVector` (RotationMatrix.h) are function parameters with no axioms. Where a contract needs a true length, the caller supplies one that squares to the squared length.
- `fromEulerAngle`, `getEulerAngle` and the `sin`/`cos` helpers are trigonometry and are not modelled.
- The compound operators `+=`, `-=`, `*=` of Vector3 and Vector2 are the binary operators followed by an assignment; only the binary forms are modelled.
- Vector3, Vector2, Bounds and Material are copied by value in the engine, so their in-place mutators (minAxis, maxAxis, normalize, init, merge, set) are functions returning the new value. No aliasing is possible on these types, so nothing is lost.
- Inertia is the scalar build selected by `PE_BodyInertia == 1`; the tensor build behind the other settings of that macro is not modelled.
- The Body and Shape destructors' deletion of shapes, `shared_ptr` reference counting and `Body::copy` are memory management and are not modelled.
- `ShockPropagationSolver::countStaticContacts` and the PhysicsWorld getters and setters (PhysicsWorld.cpp:27-90) are plain accessors; the fields they read and write are modelled.
- ShockPropagation.ShockPropagationSolver.Solve: states that every accumulated impulse ends clamped and, with shock propagation off, what the base solve guarantees; it does not restate the per-layer effect of the shock-propagation pass, which ShockPropagation.ShockPropagationSolver.SolveShockPropagation states.
- Worlds.PhysicsWorld.UpdateCollisions: the narrow phase is modelled on values (Narrow), so the world takes its manifolds whole (Worlds.PhysicsWorld.Receive) instead of having each routine append them one by one; the call of compareContacts on each new manifold is stated by Contacts.ContactsContainer.CompareContacts on its own.
- Worlds.PhysicsWorld.Update: does not restate the composed relation of the groups and poses; Worlds.PhysicsWorld.UpdateBodies states it for the first half of the step, and Worlds.PhysicsWorld.UpdateContacts, whose frame excludes the positions, rotations and counters, states the second half. Stating both in one contract exceeds the resource limit.
- The body velocities after the solve are not restated by the world step; Solvers.Solver states the effect of each solver pass.
- The GJK::compute and EPA::compute main loops are not modelled: their termination rests on floating-point convergence and support queries. Their helpers are.
- The tetrahedron case of GJK::nearestPoint (GJK.cpp:155-337) and its helpers _nearestPoint_2triangles and _nearestPoint_3triangles (GJK.cpp:435-607) are not modelled; the segment and triangle cases are. Its coplanar branch passes vec23 to _nearestPoint_triangle before anything is assigned to it (GJK.cpp:195), and the default Vector3 constructor leaves the components unset (Vector3.h:13-16), so that branch reads indeterminate values that no model over `real` can represent. _nearestPoint_3triangles passes vec24 where the edge from its second to its third point is expected (GJK.cpp:591), so the property stated for the triangle case, a point carried by the returned simplex, does not hold of that branch as written. What would remain is a sixteen-way dispatch on the signs of the four face tests, with no property beyond the triangle case to state about it.
- EPA::_solveTriangle (the horizon walk of _addVertexToConvex) is not modelled; the retirement of the expanded face (Epa.Epa.Retire) and the pairing loop (Epa.Epa.PairNewTriangles) are.
- QuickHull::_solveTempTriangle, _trianglesToPoligons and the main loop of qHull beyond the Farthest scan are not modelled; neither are the third and fourth points of _findBasedTetras, which come from the GJK-based search. The first pair, the tetrahedron built from the chosen points, the flat branch, the pairing loop and the compaction are.
- That a finished hull is convex is not stated: it depends on the main loop.
- The capsule–capsule routine, the edge-aligned geometry of hull against capsule, vertexToPolygon and the calls of compareContacts from the collision routines are not modelled; the gates, the face-aligned count, the reference-face choice and the polygon clipping (edge crossings and corners) are.
- Epa.Epa.AddTriangle: for collinear corners the source divides the zero cross product by its zero length, so the face gets a NaN normal and distance. The model gives it the zero normal and the distance NAN_DISTANCE, which is not below MAX_NUMBER. The two agree on what the rest of EPA observes: the nearest-face search never picks the face, because no `<` with NaN holds, and _checkValidTriangle marks it valid, because neither a NaN nor a zero product is above 0.
- Bodies.Body.CalculateLocalInertiaAsWritten, Bodies.Body.CalculateLocalInertia: require a box whose diagonal has non-zero length. A body whose box is a single point, such as one whose only shape is the default sphere of radius 0, is excluded: there Body.cpp:257-264 divides 12 by 0 and gets an infinite float inertia, which has no counterpart over `real`.
- ConvexHull.cpp and the Sample application (Qt scene, rendering and input) are outside the engine core.
- Body::index is not renumbered when PhysicsWorld::_removeBody erases a body; the corrected Worlds.PhysicsWorld.DestroyBody finds the body by identity instead of renumbering, since nothing else in the core reads that index.
- Both manifold swaps (ContactsContainer.cpp:211-221 and ShockPropagationSolver.cpp:54-65) negate rn, rb and the normal but keep each point's stored binormal. The model swaps exactly those fields, as written, and states no property of rb after a swap.

## Findings

| source | as written | input that shows it | evidently intended | confidence | as-written member | corrected member |
|---|---|---|---|---|---|---|
| Physics/Bodies/Body.cpp:238-251 | a sphere or capsule overwrites the inertia box with its own, and a capsule's box is built around vertex A alone, so vertex B never enters it and the shapes before it are dropped | a capsule from (0,0,-1) to (0,0,1), radius 0.5: the box misses (0,0,1) | the box holds both capsule ends, widened by the radius, and every shape of the body | not executed | Bodies.InertiaBoxAsWrittenDropsCapsuleEnd | Bodies.Body.CalculateLocalInertia |
| Physics/Bodies/Body.cpp:334-338 | `_removeShape` rebuilds the bounds tree with BoundsTree::compute, which returns at once on an empty shape list (BoundsTrees.cpp:36-42) | a body with one shape whose shape is removed keeps a tree whose leaf names the removed shape | an empty tree once the last shape is gone | not executed | Bodies.Body.RemoveShapeAsWritten | Bodies.Body.RemoveShape |
| Physics/Dynamic/ContactsContainer.cpp:207-210 | when only body A is static, the local pointers are set before the swap, so both name the static body | a manifold of static body 0 and dynamic body 1 | after the swap, the locals name the dynamic body as A and the static body as B | not executed | Contacts.LocalsAsWrittenMissDynamicBody | Contacts.ContactsContainer.OrderBodies |
| Physics/Bodies/Body.cpp:26-32 | the destructor erases the world's entry at the body's creation index, which `_removeBody` never renumbers | three bodies indexed 0, 1, 2: destroying body 0 and then body 1 erases position 1, which holds body 2, and body 1 stays | the destroyed body's own entry is erased and every other body stays | not executed | Worlds.StaleIndexErasesWrongBody, Worlds.StaleIndexScenario | Worlds.PhysicsWorld.DestroyBody |
| Physics/CollisionDetected/CollisionDetected.cpp:567-568 | the far capsule end touches the hull face when the squared distance is at most the radius, a squared length against a length | radius 0.5 and distance 0.6 give a contact (0.36 <= 0.5); radius 2 and distance 1.5 give none (2.25 > 2) | the distance is at most the radius | not executed | Narrow.FarEndAsWritten, Narrow.FarEndAsWrittenAcceptsFar, Narrow.FarEndAsWrittenMissesNear | Narrow.FarEnd, Narrow.FarEndWithinRadius |
| Physics/CollisionDetected/CollisionDetected.cpp:45-52 | the normal is divided by the distance from the closest axis point to the sphere's centre with no check that it is non-zero | a sphere centred on the capsule's axis: the distance is 0 and the normal 0/0 | no contact is made from a zero distance, as sphere against sphere does with its EPS guard | not executed | Narrow.CapsuleSphereAsWritten, Narrow.CapsuleSphereOnAxis | Narrow.CapsuleSphereContact, Narrow.CapsuleSphereFacts |
| Physics/Bodies/QuickHull.cpp:130-159 | the search for the first two points ends with an unconditional break, so the retry along y and the `return false` are never reached | three points (0,0,0), (0,1,0), (0,0,1): both extremes along x are point 0 | when x does not separate the points, y is tried, and a pair returned is two different points | not executed | QuickHulls.ExtremePairAsWritten, QuickHulls.ExtremePairCollapses | QuickHulls.ExtremePair, QuickHulls.PairDistinct |
| Physics/Bodies/QuickHull.cpp:281-290 | the flat branch copies each chosen point to temp[used[count]] rather than temp[count], and the hull then keeps its first three points whatever was chosen | four points with the chosen points 0, 2 and 3: the second write goes to temp[-1] | the three chosen points are copied, in order, to the front of the buffer and of the hull | not executed | QuickHulls.FlatCopyAsWritten, QuickHulls.QuickHull.KeepFlatAsWritten, QuickHulls.FlatCopyOutOfBounds | QuickHulls.FlatCopy, QuickHulls.QuickHull.KeepFlat, QuickHulls.FlatKeepsChosen |
