/**
 * A ball of the simulation: its size and shape, and the position, velocity
 * and acceleration that forces, the sub-stepped update and collisions with
 * other balls change in place. Each method is proved against the pure
 * definitions of module `BallKinematics`.
 */
module Balls {
  import opened Vectors
  import opened Wrappers
  import opened App
  import opened BallKinematics

  /** `size || 5`: an absent or zero size becomes 5; any other size, a negative one too, is kept. */
  function SizeOrDefault(size: Option<real>): (s: real)
    ensures s != 0.0
    ensures size.Some? && size.value != 0.0 ==> s == size.value
    ensures size.None? || size.value == 0.0 ==> s == 5.0
  {
    if size.None? || size.value == 0.0 then 5.0 else size.value
  }

  class Ball {
    const shape: Shape
    const size: Size
    var position: Vec
    var velocity: Vec
    var acceleration: Vec

    /**
     * A ball at `position`, or at the centre of a `width` by `height`
     * canvas when none is given, at rest.
     */
    constructor (shape: Shape, size: Option<real>, position: Option<Vec>, width: real, height: real)
      requires size.Some? ==> size.value >= 0.0
      ensures this.shape == shape && this.size == SizeOrDefault(size)
      ensures this.position == (if position.Some? then position.value else Vec(width / 2.0, height / 2.0))
      ensures velocity == Zero && acceleration == Zero
    {
      this.shape := shape;
      this.position := if position.Some? then position.value else Vec(width / 2.0, height / 2.0);
      this.size := SizeOrDefault(size);
      acceleration := Zero;
      velocity := Zero;
    }

    function Kinematics(): Kinematic
      reads this
    {
      Kinematic(position, velocity, acceleration)
    }

    /** `applyForce`: an enabled force's value, evaluated at the ball's size, is added to the acceleration. */
    method ApplyForce(force: Force)
      modifies this`acceleration
      ensures acceleration == Add(old(acceleration), Contribution(force, size))
    {
      if force.enabled {
        var forceValue := ValueAt(force, size);
        acceleration := Add(acceleration, forceValue);
      }
    }

    /** `applyForces`: the enabled forces are applied in order; the acceleration grows by their sum. */
    method ApplyForces(forces: seq<Force>)
      modifies this`acceleration
      ensures acceleration == Add(old(acceleration), ForceSum(forces, size))
    {
      var enabled := EnabledForces(forces);
      var i := 0;
      while i < |enabled|
        invariant i <= |enabled|
        invariant acceleration == Add(old(acceleration), ForceSum(enabled[..i], size))
      {
        ApplyForce(enabled[i]);
        assert enabled[..i + 1][..i] == enabled[..i];
        AddAssoc(old(acceleration), ForceSum(enabled[..i], size), Contribution(enabled[i], size));
        i := i + 1;
      }
      assert enabled[..|enabled|] == enabled;
      ForceSumOfEnabled(forces, size);
    }

    /**
     * `collides`: walks the closed vertex loop with `j` trailing `i` by one
     * (starting at the last vertex) and reports the normal of the first
     * edge within the ball's size of `nextPosition`.
     */
    method Collides(nextPosition: Vec, vertices: seq<Vec>) returns (r: Option<Vec>)
      ensures r == FirstHit(nextPosition, vertices, size)
    {
      var j := |vertices| - 1;
      var i := 0;
      while i < |vertices|
        invariant 0 <= i <= |vertices|
        invariant i < |vertices| ==> j == Prev(|vertices|, i)
        invariant FirstEdgeHitFrom(nextPosition, vertices, size, i) == FirstEdgeHit(nextPosition, vertices, size)
        decreases |vertices| - i
      {
        var collision := EdgeIntersectsPoint(vertices[i], vertices[j], nextPosition, size);
        if collision {
          var edge := Sub(vertices[j], vertices[i]);
          var normal := Vec(-edge.y, edge.x);
          return Some(normal);
        }
        j := i;
        i := i + 1;
      }
      return None;
    }

    /**
     * `update`: adds the acceleration to the velocity, returns early when
     * the velocity is zero, and otherwise moves in sub-steps until the first
     * tentative position that hits an edge, where the velocity is reflected.
     */
    method Update(edges: seq<Vec>)
      modifies this`position, this`velocity, this`acceleration
      ensures Kinematics() == UpdateStep(old(Kinematics()), edges, size)
    {
      velocity := Add(velocity, acceleration);
      if velocity == Zero {
        return;
      }
      StepsPositive(velocity);
      var steps := CeilSqrt(MagSq(velocity));
      var step := Div(velocity, steps as real);
      SubSteps(edges, steps, step);
      acceleration := Scale(0.0, acceleration);
    }

    /** The sub-step loop of `update`, with its `break` at the first hit. */
    method SubSteps(edges: seq<Vec>, steps: nat, step: Vec)
      modifies this`position, this`velocity
      ensures Motion(position, velocity) == Glide(old(position), step, steps, 0, old(velocity), edges, size)
    {
      ghost var start, v := position, velocity;
      var i := 0;
      while i < steps
        invariant 0 <= i <= steps
        invariant position == Sample(start, step, i) && velocity == v
        invariant Glide(start, step, steps, i, v, edges, size) == Glide(start, step, steps, 0, v, edges, size)
      {
        var nextPos := Add(position, step);
        SampleNext(start, step, i);
        var collision := Collides(nextPos, edges);
        GlideNext(start, step, steps, i, v, edges, size);
        if collision.Some? {
          velocity := Reflect(velocity, collision.value);
          break;
        } else {
          position := Add(position, step);
        }
        i := i + 1;
      }
    }

    /** One pass of `checkSiblingCollision`'s loop body for another ball. */
    method Resolve(ball: Ball, sqrt: real -> real)
      requires ball != this
      modifies this`position, this`velocity, ball`position, ball`velocity
      ensures (Body(position, velocity), Body(ball.position, ball.velocity))
           == SiblingStep(old(Body(position, velocity)), size,
                          Entry(old(Body(ball.position, ball.velocity)), ball.size, false), sqrt)
    {
      var distance := sqrt(DistSq(position, ball.position));
      var sizeDistance := ball.size + size;
      if distance <= sizeDistance {
        var normal := Normalize(Sub(ball.position, position), distance);
        var relative := Sub(ball.velocity, velocity);
        var dot := Dot(relative, normal);
        var impulse := Scale(2.0 * dot / (ball.size + size), normal);
        var bounce := Scale(sizeDistance - distance, normal);
        var adjustedVelocity := Div(impulse, size);
        var adjustedBallVelocity := Div(impulse, ball.size);
        velocity := Add(velocity, adjustedVelocity);
        ball.velocity := Sub(ball.velocity, adjustedBallVelocity);
        var adjustedPosition := Div(bounce, size);
        var adjustedBallPosition := Div(bounce, ball.size);
        position := Sub(position, adjustedPosition);
        ball.position := Add(ball.position, adjustedBallPosition);
      }
    }

    /**
     * `checkSiblingCollision`: visits the listed balls in order, skipping
     * this ball itself, and resolves each touching ball against this ball's
     * current state. `sqrt` stands for the square root behind p5's `dist`.
     */
    method CheckSiblingCollision(balls: seq<Ball>, sqrt: real -> real)
      requires forall i, j :: 0 <= i < j < |balls| ==> balls[i] != balls[j]
      modifies this, balls
      ensures var (m, outs) := SiblingPass(old(Body(position, velocity)), size, old(Entries(balls, this)), sqrt);
        && Body(position, velocity) == m
        && forall k :: 0 <= k < |balls| && balls[k] != this ==>
             Body(balls[k].position, balls[k].velocity) == outs[k]
      ensures acceleration == old(acceleration)
      ensures forall k :: 0 <= k < |balls| ==> balls[k].acceleration == old(balls[k].acceleration)
    {
      ghost var es := Entries(balls, this);
      ghost var start := Body(position, velocity);
      var k := 0;
      while k < |balls|
        invariant 0 <= k <= |balls|
        invariant Body(position, velocity) == SiblingPass(start, size, es[..k], sqrt).0
        invariant forall j :: 0 <= j < k && balls[j] != this ==>
                    Body(balls[j].position, balls[j].velocity) == SiblingPass(start, size, es[..k], sqrt).1[j]
        invariant forall j :: k <= j < |balls| && balls[j] != this ==>
                    Body(balls[j].position, balls[j].velocity) == es[j].body
        invariant acceleration == old(acceleration)
        invariant forall j :: 0 <= j < |balls| ==> balls[j].acceleration == old(balls[j].acceleration)
      {
        var ball := balls[k];
        assert es[..k + 1][..k] == es[..k];
        if ball != this {
          Resolve(ball, sqrt);
        }
        k := k + 1;
      }
      assert es[..|balls|] == es;
    }
  }

  /** The list as one ball's pass sees it: every ball's state and size, and whether it is `me`. */
  function Entries(balls: seq<Ball>, me: Ball): (r: seq<Entry>)
    reads balls
    ensures |r| == |balls|
    ensures forall k :: 0 <= k < |balls| ==>
      r[k] == Entry(Body(balls[k].position, balls[k].velocity), balls[k].size, balls[k] == me)
  {
    seq(|balls|, k requires 0 <= k < |balls| reads balls =>
      Entry(Body(balls[k].position, balls[k].velocity), balls[k].size, balls[k] == me))
  }
}
