# Bounce simulator — a Dafny model of its physics core

The bounce simulator is a small browser app. It draws a boundary shape and a
set of balls. Each frame, every ball:

- accumulates the enabled forces (gravity and its siblings);
- moves in sub-steps at most one unit long, and its velocity is reflected at
  the first sub-step that would touch a boundary edge;
- exchanges a size-weighted impulse and push with every ball it touches;
- is removed from the list when it has left the screen.

A left click spawns a new ball. This project models that core in Dafny. Vectors
are over `real`. The objects the source mutates are classes whose methods are
proved against pure definitions, and the properties the source promises are
lemmas about those definitions.

Modules, one per source file plus two shared ones:

- `Wrappers` (`wrappers.dfy`): `Option`, `Result` and `Outcome`.
- `Vectors` (`vectors.dfy`): the 2-D vector operations the code takes from
  p5 (`add`, `sub`, `mult`, `div`, `dot`, `magSq`, `reflect`), and facts about
  reflection.
- `App` (`app.dfy`): `src/App.tsx`. This covers the shape lists and the force
  record. It also covers the name-keyed force registry behind `addForce`, as
  the class `ForceRegistry` and the function `WithForceAdded`.
- `BallKinematics` (`ball_kinematics.dfy`): everything `src/components/p5/Ball.ts`
  computes, as pure definitions:
  - the force sum;
  - the sub-step count `ceil(|v|)`;
  - the segment–point test and the first-hit edge search;
  - the sub-stepped glide and the whole of `update`;
  - the ball–ball response and the pass over the ball list.
- `Balls` (`ball.dfy`): the class `Ball`. Its methods update position,
  velocity and acceleration in place with the source's own loops. Each is
  proved equal to the definition in `BallKinematics`.
- `Drawing` (`drawer.dfy`): `src/components/p5/Drawer.ts`, the vertex lists of
  a square and a circle and the dispatch on the shape name.
- `Boundaries` (`boundary.dfy`): `src/components/p5/Boundary.ts`, its defaults,
  its shape map and the validation that makes construction fail.
- `Canvas` (`canvas.dfy`): `src/components/P5Canvas.tsx`. This covers the
  default forces and their selection, `setup`, the mouse-click spawn, and one
  frame of `draw`. The frame is defined on values by `FrameFrom`, over slots
  that pair each ball's identity with its state. The class `Sketch` holds the
  ball list, and `Sketch.Draw` is proved to perform exactly that frame on the
  ball objects.

The frame follows JavaScript's `forEach` with `splice` inside it:

- the callback runs for index `k` while `k` is below the current length;
- each `splice(k, 1)` removes the element at `k`, if there is one.

A culled ball's successor therefore moves into the visited index and is
skipped for that frame (`CulledOnceSkipsNext`). A ball that fails both cull
tests is spliced twice at the same index. The second splice removes the next
ball, even when that ball is on screen (`CulledTwiceDropsNext`).

`sqrt`, `cos` and `sin` are parameters of the members that need them. The
random draws of `setup` are a parameter too.

## Model

| member | source | states |
|---|---|---|
| Vectors.Reflect | src/components/p5/Ball.ts:91 | p5's `reflect`: `v - (2 (v . n) / abs(n)^2) n`, and `v` unchanged when the normal is zero (a definition; the Reflect lemmas below state its properties) |
| Vectors.ReflectPreservesMagSq | src/components/p5/Ball.ts:91 | reflecting the velocity about any normal keeps its squared length |
| Vectors.ReflectNegatesNormalComponent | src/components/p5/Ball.ts:91 | about a non-zero normal, the component along the normal changes sign and the tangential component is kept |
| Vectors.ReflectInvolutive | src/components/p5/Ball.ts:91 | reflecting twice about the same normal gives the velocity back |
| Vectors.ReflectScaleInvariant | src/components/p5/Ball.ts:106 | the reflection about `k * n` equals the one about `n` for every `k > 0`, so leaving out `normalize` on the edge normal changes no result |
| Vectors.PerpOrthogonal | src/components/p5/Ball.ts:105-106 | the normal `(-e.y, e.x)` is orthogonal to the edge `e` and has the same length |
| App.Shapes | src/App.tsx:7 | the shape names offered to balls: "Square", "Circle", "Triangle" (a constant; `Boundaries.AppShapesFailAtTriangle` is about it) |
| App.BoundaryShapes | src/App.tsx:8 | the shape names offered to the boundary: "Square", "Circle", "Triangle", "Random" (a constant; `Boundaries.AppShapesFailAtTriangle` is about it) |
| App.ValueAt | src/components/p5/Ball.ts:58 | the `typeof force.value === "function"` choice: a function is applied to the size, a vector is taken as it is (a definition; `Canvas.DefaultForceValues` and `BallKinematics.ForceSumToggleOff` use it) |
| App.HasName | src/App.tsx:30 | `some`: whether an entry carries the name (a definition; `AddNewForceAppends` and `AddExistingForceTogglesOnly` are its two branches) |
| App.WithForceAdded | src/App.tsx:29-36 | `addForce` on the list as a value; the lemmas below state what it promises |
| App.FirstNamed | src/App.tsx:34 | `find`: the index of an entry with the name, with no earlier entry carrying it |
| App.ForceRegistry.constructor | src/App.tsx:26 | the registry starts empty |
| App.ForceRegistry.AddForce | src/App.tsx:29-36 | the list after the call is `WithForceAdded` of the list before it |
| App.AddNewForceAppends | src/App.tsx:30-32 | a new name: the force is appended at the end, the old entries are kept and the length grows by one |
| App.AddExistingForceTogglesOnly | src/App.tsx:33-35 | an existing name: the length is kept, the first match keeps its name and value and takes the new `enabled`, and every other entry is unchanged |
| App.AddForceKeepsOtherNames | src/App.tsx:29-36 | in both branches, an entry under another name is unchanged at its index |
| App.AddForceSetsEnabled | src/App.tsx:29-36 | afterwards the name is present, and its first entry has the new `enabled` flag |
| App.AddForcePreservesUniqueNames | src/App.tsx:30-35 | unique names stay unique |
| App.AddForceIdempotent | src/App.tsx:29-36 | adding the same force twice gives the list that adding it once gives |
| BallKinematics.Contribution | src/components/p5/Ball.ts:57-60 | what one force adds: its value at the size when enabled, nothing otherwise (a definition; `Balls.Ball.ApplyForce` is proved against it) |
| BallKinematics.ForceSum | src/components/p5/Ball.ts:67-69 | the contributions summed in list order (a definition; the lemmas below and `Balls.Ball.ApplyForces` state its properties) |
| BallKinematics.EnabledForces | src/components/p5/Ball.ts:68 | `filter`: every element of the result is enabled, and a force is in it exactly when it is an enabled force of the list |
| BallKinematics.EnabledForcesCount | src/components/p5/Ball.ts:68 | each enabled force occurs in the result as often as in the list, and a disabled one not at all |
| BallKinematics.EnabledForcesAppend | src/components/p5/Ball.ts:68 | the filter keeps order: the enabled forces of `a + b` are those of `a` followed by those of `b` |
| BallKinematics.ForceSumOfEnabled | src/components/p5/Ball.ts:67-69 | filtering out the disabled forces first does not change the sum |
| BallKinematics.ForceSumAppend | src/components/p5/Ball.ts:67-69 | the sum over a concatenation is the sum of the two sums |
| BallKinematics.ForceSumToggleOff | src/components/p5/Ball.ts:56-61 | switching one enabled force off removes exactly its value, at the ball's size, from the sum |
| BallKinematics.CeilSqrt | src/components/p5/Ball.ts:77 | `Math.ceil(mag)`: the least natural number whose square reaches the squared length |
| BallKinematics.StepsPositive | src/components/p5/Ball.ts:77-84 | a non-zero velocity takes at least one sub-step, so the division never divides by zero |
| BallKinematics.SubStepAtMostUnit | src/components/p5/Ball.ts:76-84 | each sub-step `v / ceil(abs v)` is at most one unit long |
| BallKinematics.FullSubStepsCoverVelocity | src/components/p5/Ball.ts:84-95 | `n` sub-steps of `v / n` add up to exactly `v` |
| BallKinematics.Projection | src/components/p5/Ball.ts:125-129 | the clamped projection parameter lies in [0, 1] |
| BallKinematics.EdgeIntersectsPoint | src/components/p5/Ball.ts:113-152 | `edgeIntersectsPoint`: the zero-length fallback, else the distance to the clamped projection against the radius (a definition; the lemmas below give its meaning) |
| BallKinematics.DegenerateEdgeTest | src/components/p5/Ball.ts:119-123 | on a zero-length edge the test is `dist(point, edgeStart) <= radius` |
| BallKinematics.ClosestPointOnSegment | src/components/p5/Ball.ts:125-136 | no point of the segment is closer to the point than the point at the clamped projection |
| BallKinematics.EdgeTestWitness | src/components/p5/Ball.ts:113-152 | a passing test has a point of the segment within the radius |
| BallKinematics.EdgeTestFromWitness | src/components/p5/Ball.ts:113-152 | any point of the segment within the radius makes the test pass |
| BallKinematics.EdgeTestMeansSegmentWithin | src/components/p5/Ball.ts:113-152 | the test passes if and only if some point of the segment lies within the radius of the point |
| BallKinematics.EdgeHit | src/components/p5/Ball.ts:103 | the edge test for edge `i`, joining vertex `i` to the one before it (a definition) |
| BallKinematics.EdgeNormal | src/components/p5/Ball.ts:105-106 | the edge `v[j] - v[i]` turned a quarter turn (a definition; `FirstHitNormalOrthogonal` states its property) |
| BallKinematics.FirstEdgeHitFrom | src/components/p5/Ball.ts:101-110 | the first hit edge at index `i` or later; none exactly when no such edge is hit |
| BallKinematics.FirstEdgeHit | src/components/p5/Ball.ts:100-111 | the index found is in range, and an empty vertex list finds none |
| BallKinematics.FirstHit | src/components/p5/Ball.ts:100-111 | `collides`: the normal of the first hit edge, or nothing (a definition over `FirstEdgeHit`; `Balls.Ball.Collides` is proved against it) |
| BallKinematics.FirstHitNormalOrthogonal | src/components/p5/Ball.ts:105-107 | the returned normal is orthogonal to the edge `v[j] - v[i]` it belongs to |
| BallKinematics.Glide | src/components/p5/Ball.ts:86-96 | the sub-step loop stops at some sample `k`: every earlier tentative position is clear and committed; either all steps ran, or the next one hit and its velocity is the reflection |
| BallKinematics.GlideKeepsSpeed | src/components/p5/Ball.ts:86-96 | the sub-step loop never changes the squared speed |
| BallKinematics.GlideWithoutHit | src/components/p5/Ball.ts:86-96 | with all tentative positions clear, the ball ends at the last sample and keeps its velocity |
| BallKinematics.GlideEndsClear | src/components/p5/Ball.ts:86-96 | a ball that moved ends at a position touching no edge |
| BallKinematics.UpdateStep | src/components/p5/Ball.ts:74-98 | `update` on values: velocity takes the acceleration, the early return at rest, else the glide and a cleared acceleration (a definition; the lemmas below state its properties and `Balls.Ball.Update` is proved against it) |
| BallKinematics.UpdateAtRest | src/components/p5/Ball.ts:75-82 | when velocity plus acceleration is zero, the position and the acceleration are kept (the early return) |
| BallKinematics.UpdateWithoutHit | src/components/p5/Ball.ts:84-97 | with no hit on the way, the ball moves by exactly its new velocity, keeps it, and its acceleration becomes zero |
| BallKinematics.UpdateKeepsSpeed | src/components/p5/Ball.ts:74-98 | the speed after `update` is the speed of velocity plus acceleration |
| BallKinematics.UpdateStopsAtFirstHit | src/components/p5/Ball.ts:86-96 | a moving ball's update stops at the first tentative position that touches an edge, is not committed there, and reflects once |
| BallKinematics.SiblingResponse | src/components/p5/Ball.ts:164-190 | the impulse and push of one touching pair (a definition; the three lemmas below state its properties) |
| BallKinematics.SiblingResponseBalanced | src/components/p5/Ball.ts:164-190 | for a touching pair, the size-weighted velocity changes cancel, and so do the size-weighted position changes |
| BallKinematics.SiblingResponseAlongCentres | src/components/p5/Ball.ts:164-190 | every change lies along the line of centres; the tangential components are kept |
| BallKinematics.SiblingPushSeparates | src/components/p5/Ball.ts:172-190 | for overlapping balls at a positive distance, the push moves them apart along the line of centres |
| BallKinematics.TouchBySquares | src/components/p5/Ball.ts:160-163 | with an exact square root, `distance <= sizeDistance` is the same test on squared lengths |
| BallKinematics.SiblingStep | src/components/p5/Ball.ts:159-192 | one loop iteration: the ball itself skipped, a far ball untouched, a touching one resolved (a definition; `Balls.Ball.Resolve` is proved against it) |
| BallKinematics.SiblingPass | src/components/p5/Ball.ts:158-193 | the pass gives each listed ball a new state, one per entry |
| BallKinematics.PassEntry | src/components/p5/Ball.ts:158-192 | entry `k` is resolved against this ball's state after the entries before it |
| BallKinematics.PassSkipsSelf | src/components/p5/Ball.ts:159 | at its own entry the ball is skipped: its running state after that entry equals its state before it, and the entry itself is unchanged |
| BallKinematics.PassFarUntouched | src/components/p5/Ball.ts:160-163 | a ball farther than the size sum when it is visited is untouched, and this ball's running state does not change at that entry |
| BallKinematics.PassNoTouch | src/components/p5/Ball.ts:158-194 | with no other ball touching, the pass changes nothing |
| BallKinematics.SiblingStepBalanced | src/components/p5/Ball.ts:163-190 | one step keeps the pair's size-weighted velocity and position sums |
| BallKinematics.PassConservesMomentum | src/components/p5/Ball.ts:158-194 | the whole pass keeps the size-weighted sum of all velocities |
| BallKinematics.PassConservesMoment | src/components/p5/Ball.ts:158-194 | the whole pass keeps the size-weighted sum of all positions |
| Balls.SizeOrDefault | src/components/p5/Ball.ts:35 | `size \|\| 5`: a given non-zero size, a negative one included, is kept; an absent or zero size becomes 5; the result is never zero |
| Balls.Ball.constructor | src/components/p5/Ball.ts:29-42 | a ball of the given shape and size, at the given position or the canvas centre, at rest with no acceleration |
| Balls.Ball.ApplyForce | src/components/p5/Ball.ts:56-61 | the acceleration grows by the force's value at the ball's size when the force is enabled, and by nothing otherwise |
| Balls.Ball.ApplyForces | src/components/p5/Ball.ts:67-69 | the acceleration grows by the sum of the enabled forces' values |
| Balls.Ball.Collides | src/components/p5/Ball.ts:100-111 | the loop with `j` trailing `i` returns the normal of the first hit edge, or nothing |
| Balls.Ball.SubSteps | src/components/p5/Ball.ts:86-96 | the loop with its `break` performs `Glide` |
| Balls.Ball.Update | src/components/p5/Ball.ts:74-98 | the ball's new position, velocity and acceleration are `UpdateStep` of the old ones |
| Balls.Ball.Resolve | src/components/p5/Ball.ts:160-191 | one pass of the loop body changes both balls as `SiblingStep` says |
| Balls.Ball.CheckSiblingCollision | src/components/p5/Ball.ts:154-194 | this ball and every other listed ball end in the states `SiblingPass` gives them; accelerations are kept |
| Drawing.SquareVertices | src/components/p5/Drawer.ts:43-53 | exactly four vertices |
| Drawing.SquareCornerOrder | src/components/p5/Drawer.ts:47-52 | for a positive size the order is top-left, top-right, bottom-right, bottom-left |
| Drawing.SquareCornerOffsets | src/components/p5/Drawer.ts:46-52 | each corner is offset from the centre by half the size along both axes |
| Drawing.SquareCentred | src/components/p5/Drawer.ts:46-52 | the mean of the corners is the centre |
| Drawing.SquareTranslates | src/components/p5/Drawer.ts:46-52 | moving the centre by `d` moves every corner by `d` |
| Drawing.MapRange | src/components/p5/Drawer.ts:58 | p5's `map`, the linear rescaling (a definition) |
| Drawing.Angle | src/components/p5/Drawer.ts:58 | vertex `i`'s angle `map(i, 0, segments, 0, TWO_PI)` (a definition; `AnglesIncrease` states its properties) |
| Drawing.CircleVertices | src/components/p5/Drawer.ts:55-64 | exactly `segments` vertices (none for a count below one) |
| Drawing.AnglesIncrease | src/components/p5/Drawer.ts:58 | the angles start at 0, increase with the index and stay below `TWO_PI` |
| Drawing.FirstCircleVertex | src/components/p5/Drawer.ts:57-61 | vertex 0 is `(x + radius, y)` |
| Drawing.CircleVertexOnCircle | src/components/p5/Drawer.ts:58-61 | each vertex lies at distance `radius` from the centre, given `cos^2 + sin^2 == 1` |
| Drawing.SegmentsOrDefault | src/components/p5/Drawer.ts:37 | `segments \|\| 30`: an absent or zero count becomes 30 (a definition; `CircleDefaultSegments` uses it) |
| Drawing.Vertices | src/components/p5/Drawer.ts:32-41 | a square gives four vertices, and a circle one per segment of `segments \|\| 30` |
| Drawing.CircleDefaultSegments | src/components/p5/Drawer.ts:37 | a circle with an absent or zero segment count gets 30 vertices |
| Drawing.OnlySquaresAndCirclesHaveVertices | src/components/p5/Drawer.ts:38-39 | every name other than "Square" and "Circle", "Triangle" and "Random" among them, gets no vertices |
| Boundaries.ShapeCheck | src/components/p5/Boundary.ts:38-49 | `ensureAllShapesInShapeMap` as a value: the undefined-list error, else the first missing shape by name, else a pass (a definition; the lemmas below state its properties) |
| Boundaries.SizeOrDefault | src/components/p5/Boundary.ts:20 | `size \|\| 100`: a given non-zero size is kept, an absent or zero size becomes 100, and the result is never zero |
| Boundaries.FirstMissingFrom | src/components/p5/Boundary.ts:43-47 | the first listed shape without an entry in the map; none exactly when every shape has one |
| Boundaries.MappedShapes | src/components/p5/Boundary.ts:31-32 | the keys `populateShapeMap` registers: "Square" and "Circle" (a constant; `Boundaries.Boundary.PopulateShapeMap` and `Boundaries.ShapeCheckPasses` use it) |
| Boundaries.ShapeCheckPasses | src/components/p5/Boundary.ts:38-49 | a defined list passes if and only if every listed shape is "Square" or "Circle" |
| Boundaries.ShapeCheckNamesFirstMissing | src/components/p5/Boundary.ts:43-47 | a failure names the first listed shape without an entry |
| Boundaries.AppShapesFailAtTriangle | src/components/p5/Boundary.ts:43-47 | the application's `Shapes` and `BoundaryShapes` lists both fail at "Triangle" |
| Boundaries.Boundary.constructor | src/components/p5/Boundary.ts:13-28 | the position is the argument or (0, 0), the size is `size \|\| 100`, velocity and acceleration are zero, and the map holds exactly "Square" and "Circle" |
| Boundaries.Boundary.PopulateShapeMap | src/components/p5/Boundary.ts:30-33 | the map gains "Square" and "Circle" with their routines |
| Boundaries.Boundary.EnsureAllShapesInShapeMap | src/components/p5/Boundary.ts:38-49 | an undefined list fails with its message; otherwise the first listed shape missing from the map fails by name |
| Boundaries.Create | src/components/p5/Boundary.ts:13-28 | construction fails with the validation's error exactly when the validation fails, and otherwise yields a fresh boundary with its shape and shape list, the position given or (0, 0), `size \|\| 100`, zero velocity and acceleration, and the map keys "Square" and "Circle" |
| Canvas.DefaultForces | src/components/P5Canvas.tsx:34-55 | the sketch's four forces in the source's order, only "Gravity" enabled (a constant; `Canvas.DefaultForceValues` and `Canvas.DefaultNamesUnique` state its contents) |
| Canvas.DefaultForceValues | src/components/P5Canvas.tsx:34-55 | the four defaults are `0.1 * size` along +y, -y, +x and -x, and only Gravity starts enabled |
| Canvas.DefaultForcesAreGravity | src/components/P5Canvas.tsx:34-55 | under the defaults every ball accelerates by gravity alone, `(0, 0.1 * size)` |
| Canvas.AddAll | src/components/P5Canvas.tsx:57 | the registry after `forEach(addForce)`, one `WithForceAdded` per force in order (a definition) |
| Canvas.DefaultNamesUnique | src/components/P5Canvas.tsx:34-55 | the default names are distinct |
| Canvas.AddAllFresh | src/components/P5Canvas.tsx:57 | registering forces with new, distinct names appends them in order |
| Canvas.DefaultsRegisteredInOrder | src/components/P5Canvas.tsx:57 | registering the defaults on an empty registry yields exactly the defaults |
| Canvas.SelectedForces | src/components/P5Canvas.tsx:56-57 | a non-empty given list is used as it is, and otherwise the defaults are used |
| Canvas.SelectionAgreesWithRegistry | src/App.tsx:72 | when the registry's own list is passed in, the sketch and the registry hold the same list after the selection |
| Canvas.RegisterAll | src/components/P5Canvas.tsx:57 | `forEach(addForce)` leaves the registry as `AddAll` of the list |
| Canvas.SelectForces | src/components/P5Canvas.tsx:34-57 | the selected list, with the defaults registered only when no forces are given |
| Canvas.OffScreenX | src/components/P5Canvas.tsx:91 | the horizontal test `x + size > width \|\| x + size < -width` (a definition) |
| Canvas.OffScreenY | src/components/P5Canvas.tsx:92 | the vertical test, with the height (a definition) |
| Canvas.Splice | src/components/P5Canvas.tsx:91-92 | `splice(k, 1)`: removes the element at `k`, nothing past the end (a definition) |
| Canvas.Moved | src/components/P5Canvas.tsx:85-86 | the visited ball after `applyForces(forces)` and `update(edges)` (a definition; `Canvas.Sketch.Move` is proved against it) |
| Canvas.Collided | src/components/P5Canvas.tsx:88 | the list after the visited ball's `checkSiblingCollision(balls)` (a definition; `Canvas.Sketch.Collide` is proved against it) |
| Canvas.Advanced | src/components/P5Canvas.tsx:85-88 | the visited ball moved, then collided with the whole current list (a definition; `AdvanceWithoutContact` and `Canvas.Sketch.Advance`) |
| Canvas.Visit | src/components/P5Canvas.tsx:84-93 | one `forEach` callback: advance, then the two cull tests at the same index; the list never grows |
| Canvas.FrameFrom | src/components/P5Canvas.tsx:84-93 | the rest of a frame: a callback for each index still inside the shrinking list (a definition; the frame lemmas below and `Canvas.Sketch.Draw`) |
| Canvas.VisitedFrom | src/components/P5Canvas.tsx:84-93 | the balls the rest of a frame visits, in order (a definition; used by the skipping lemmas) |
| Canvas.CullAt | src/components/P5Canvas.tsx:91-92 | the two splices at `k` remove as many consecutive balls from `k` on as tests the visited ball fails |
| Canvas.VisitTags | src/components/P5Canvas.tsx:84-93 | a visit moves no ball in the list and removes `Cuts` balls from the visited index on |
| Canvas.OnScreenBallStays | src/components/P5Canvas.tsx:84-93 | a ball that passes both tests stays, and the next ball is visited next |
| Canvas.VisitStep | src/components/P5Canvas.tsx:84-93 | a visit keeps the balls before its index, and from there on keeps only balls that were there |
| Canvas.FrameFromTags | src/components/P5Canvas.tsx:84-93 | the rest of a frame keeps the balls before its index, and after it only balls that were there |
| Canvas.VisitedFromTags | src/components/P5Canvas.tsx:84-93 | the rest of a frame visits only balls that were at its index or beyond |
| Canvas.FrameKeepsOnlyListed | src/components/P5Canvas.tsx:84-93 | every ball left after a frame was in the list before it |
| Canvas.CulledBallRemoved | src/components/P5Canvas.tsx:91-92 | a ball that fails a cull test is gone at the end of the frame |
| Canvas.CulledOnceSkipsNext | src/components/P5Canvas.tsx:84-93 | a ball culled once makes the next ball skip its visit; that ball stays in the list at the culled index |
| Canvas.CulledTwiceDropsNext | src/components/P5Canvas.tsx:84-93 | a ball culled twice removes the next ball, which is neither visited nor kept |
| Canvas.AdvanceWithoutContact | src/components/P5Canvas.tsx:85-88 | with no ball touching the moved ball, the visit gives it its updated state and leaves every other ball as it was |
| Canvas.ClickSpawns | src/components/P5Canvas.tsx:96 | a left click inside [0, width] by [0, height] (a definition; `Canvas.Sketch.MouseClicked`) |
| Canvas.ClickPosition | src/components/P5Canvas.tsx:97-98 | the click translated by half the canvas (a definition) |
| Canvas.ClickedBallOnScreen | src/components/P5Canvas.tsx:95-101 | a spawning click lands inside the centred canvas, and its size-5 ball passes both cull tests |
| Canvas.SpawnPosition | src/components/P5Canvas.tsx:69 | the start position from two draws, each times 100 (a definition) |
| Canvas.SpawnedOnScreen | src/components/P5Canvas.tsx:68-71 | set-up positions lie in [0, 100) by [0, 100), and a ball of size up to 300 starts on screen |
| Canvas.OversizedSpawnCulled | src/components/P5Canvas.tsx:68-71 | a set-up ball larger than the canvas height fails the vertical cull test wherever it starts |
| Canvas.Sketch.constructor | src/components/P5Canvas.tsx:28-57 | the sketch starts with no balls and the selected forces, registering the defaults only when none are given |
| Canvas.Sketch.Setup | src/components/P5Canvas.tsx:68-71 | exactly `ballCount` fresh balls are appended, with the given shape and size, at rest, at positions from the random draws |
| Canvas.Sketch.MouseClicked | src/components/P5Canvas.tsx:95-101 | a left click inside the canvas appends exactly one fresh ball of size 5 at `(mouseX - width/2, mouseY - height/2)`; any other click adds nothing |
| Canvas.Sketch.Draw | src/components/P5Canvas.tsx:84-93 | the balls after a frame are `FrameFrom` of the balls before it, including the skipping the splices cause |
| Canvas.Sketch.VisitBall | src/components/P5Canvas.tsx:84-93 | one callback changes the balls as `Visit` says |
| Canvas.Sketch.Advance | src/components/P5Canvas.tsx:85-88 | forces, update and sibling collision, in that order, as `Advanced` says |
| Canvas.Sketch.Move | src/components/P5Canvas.tsx:85-86 | only the visited ball changes, to its state after `applyForces` and `update` |
| Canvas.Sketch.Collide | src/components/P5Canvas.tsx:88 | `checkSiblingCollision(balls)` changes the balls as `Collided` says |
| Canvas.Sketch.Cull | src/components/P5Canvas.tsx:91-92 | the two tests, each followed by `splice(index, 1)`, change the list as `CullAt` says |

## Left out

- Rendering is not modelled: `Ball.display`, `Drawer.drawSquare` and `drawCircle`, `Boundary.createBoundary` and its drawing routines, the canvas background and material, and the ray-casting debug drawing in `edgeIntersectsPoint`. They have only visual effects. The ray-casting flag therefore does not appear, and it does not change the boolean result.
- Floating point is not modelled. All arithmetic is over `real`, so rounding, `NaN` and infinities do not occur.
- `Math.sqrt` behind p5's `dist` and `mag` in `checkSiblingCollision` is a parameter `sqrt`. The conservation lemmas hold for any `sqrt`. `TouchBySquares` relates the test to squared lengths when `sqrt` is exact.
- `cos` and `sin` are parameters of `CircleVertices`. The circle lemmas state what they assume of them.
- `Math.ceil(velocity.mag())` is `CeilSqrt` of the squared length, which is exact without a square root. The edge test compares squared lengths, which is exact for a non-negative radius.
- Balls.Ball.Collides: returns the normal without p5's `normalize`. `Vectors.ReflectScaleInvariant` shows that the reflection, which is the normal's only use, is the same. A zero edge gives a zero normal in both, and the reflection then leaves the velocity as it is.
- Balls.Ball.constructor: requires a size that is absent or not negative, although `size || 5` keeps a negative size and the size field accepts a typed negative value. A ball's size is a positive subtype: two touching balls of sizes `s` and `-s` make `2 * dot / (ball.size + this.size)` divide by zero, which gives `NaN` in the source and cannot be expressed over `real`. `Balls.SizeOrDefault` itself models the negative case.
- Balls.Ball.CheckSiblingCollision: requires the listed balls to be distinct objects. A ball object listed twice would be resolved twice. Every list the sketch builds is distinct, and `Canvas.Sketch.Valid` keeps that invariant.
- Canvas.Sketch.Draw: requires `Sketch.Valid()`, meaning the balls are distinct objects. `setup`, the mouse click and the frame all maintain it.
- Canvas.Sketch.Setup: requires one random draw pair per ball and a non-negative ball size, for the reason given for `Balls.Ball.constructor`. `Math.random()` is replaced by the `draws` parameter.
- The edges a frame uses are a parameter of `Sketch.Draw`. The files disagree with each other here:
  - `src/components/P5Canvas.tsx:62` passes the boundary size where `src/components/p5/Boundary.ts:13` takes the shape list;
  - `src/components/P5Canvas.tsx:82` uses the result of `createBoundary`, which returns nothing (`src/components/p5/Boundary.ts:51`);
  - `src/components/p5/Ball.ts:47` calls `drawer.draw`, which `src/components/p5/Drawer.ts` lacks.

  Each file is modelled as written. Setup's construction of the boundary and the canvas (`src/components/P5Canvas.tsx:60-62`) is not part of `Sketch.Setup`. The frame treats `display` as having no effect.
- Boundaries.Create: the constructor's uncaught `throw` is a `Failure` result. The constructor itself only assigns the fields and fills the map.
- The position copy in the boundary constructor has no counterpart: vectors are values here, so nothing can alias them. The copy is subsumed by that.
- Force objects and lists are values. When the registry's list is non-empty, the sketch keeps that very array (`forces = props.forces`, with `forcesRef.current` passed in), so the two share it: a later `addForce` push, or a toggle of `enabled` from the options panel, would be seen by the sketch. The model captures the selection at construction (`SelectionAgreesWithRegistry`), not this aliasing or later shared mutation.
- In the source, the ball list lives in the React component, and `p5.mouseClicked` is re-assigned on every frame with the same body. The model makes the list a field of `Sketch` and `MouseClicked` a method of it.
- The React lifecycle is not modelled: `useRef`, `ReactP5Wrapper`, re-rendering, the `rerenders` counter and its `console.log`. Neither are `OptionsUI`, `CheckboxList` or `server.js`. All of these are UI or dev-server plumbing.
- Ball colours (`p5.random`) and the ball's drawer are used only for drawing.
- Drawing.CircleVertices: takes the segment count as an `int`. The source's count is a number, and a fractional count such as 2.5 gives three vertices at angles `i * TWO_PI / 2.5`; that case is not modelled.
- `ballCount` is an `int`; a negative or zero count spawns nothing. A fractional count is not modelled.
