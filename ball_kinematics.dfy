/**
 * The mathematics behind a ball's motion: the force sum, the number of
 * sub-steps, the segment distance test, the first-hit edge search, the
 * sub-stepped glide along a frame's velocity, and the pairwise impulse.
 * The `Ball` class in module `Balls` is proved against these definitions.
 */
module BallKinematics {
  import opened Vectors
  import opened Wrappers
  import opened App

  // ---------------------------------------------------------------------
  // Forces

  /** What one force adds to a ball's acceleration: nothing when it is disabled. */
  function Contribution(force: Force, size: real): Vec {
    if force.enabled then ValueAt(force, size) else Zero
  }

  /** The sum of the contributions, accumulated from the first force to the last. */
  function ForceSum(forces: seq<Force>, size: real): Vec {
    if forces == [] then Zero
    else Add(ForceSum(forces[..|forces| - 1], size), Contribution(forces[|forces| - 1], size))
  }

  /** Array `filter(force => force.enabled)`. */
  function EnabledForces(forces: seq<Force>): (r: seq<Force>)
    ensures forall i :: 0 <= i < |r| ==> r[i].enabled
    ensures forall f :: f in r <==> f in forces && f.enabled
  {
    if forces == [] then []
    else
      var rest := EnabledForces(forces[..|forces| - 1]);
      var last := forces[|forces| - 1];
      assert forces == forces[..|forces| - 1] + [last];
      if last.enabled then rest + [last] else rest
  }

  /** Filtering keeps every enabled force as often as it occurs, and no disabled one. */
  lemma {:induction false} EnabledForcesCount(forces: seq<Force>, f: Force)
    ensures multiset(EnabledForces(forces))[f] == if f.enabled then multiset(forces)[f] else 0
  {
    if forces != [] {
      var init, last := forces[..|forces| - 1], forces[|forces| - 1];
      assert forces == init + [last];
      EnabledForcesCount(init, f);
    }
  }

  /**
   * Filtering keeps the order: the enabled forces of a concatenation are
   * those of the first part followed by those of the second.
   */
  lemma {:induction false} EnabledForcesAppend(a: seq<Force>, b: seq<Force>)
    ensures EnabledForces(a + b) == EnabledForces(a) + EnabledForces(b)
    decreases |b|
  {
    if b == [] {
      assert a + b == a;
    } else {
      var b', last := b[..|b| - 1], b[|b| - 1];
      var ab := a + b;
      assert ab[..|ab| - 1] == a + b';
      assert ab[|ab| - 1] == last;
      EnabledForcesAppend(a, b');
      var ea, eb' := EnabledForces(a), EnabledForces(b');
      var tail := if last.enabled then [last] else [];
      assert EnabledForces(ab) == EnabledForces(a + b') + tail;
      assert EnabledForces(b) == eb' + tail;
      assert (ea + eb') + tail == ea + (eb' + tail);
    }
  }

  /** The sum of a concatenation is the sum of the sums. */
  lemma {:induction false} ForceSumAppend(a: seq<Force>, b: seq<Force>, size: real)
    ensures ForceSum(a + b, size) == Add(ForceSum(a, size), ForceSum(b, size))
  {
    if b == [] {
      assert a + b == a;
    } else {
      var b' := b[..|b| - 1];
      var ab := a + b;
      assert ab[..|ab| - 1] == a + b';
      assert ab[|ab| - 1] == b[|b| - 1];
      ForceSumAppend(a, b', size);
      var last := Contribution(b[|b| - 1], size);
      calc {
        ForceSum(ab, size);
        Add(ForceSum(a + b', size), last);
        Add(Add(ForceSum(a, size), ForceSum(b', size)), last);
        { AddAssoc(ForceSum(a, size), ForceSum(b', size), last); }
        Add(ForceSum(a, size), Add(ForceSum(b', size), last));
        Add(ForceSum(a, size), ForceSum(b, size));
      }
    }
  }

  /** Disabled forces contribute nothing: filtering them out first changes no sum. */
  lemma {:induction false} ForceSumOfEnabled(forces: seq<Force>, size: real)
    ensures ForceSum(EnabledForces(forces), size) == ForceSum(forces, size)
  {
    if forces != [] {
      var init := forces[..|forces| - 1];
      var last := forces[|forces| - 1];
      ForceSumOfEnabled(init, size);
      if last.enabled {
        ForceSumAppend(EnabledForces(init), [last], size);
        assert ForceSum([last], size) == Add(Zero, Contribution(last, size)) by {
          assert [last][..0] == [];
        }
      }
    }
  }

  lemma ForceSumSingle(force: Force, size: real)
    ensures ForceSum([force], size) == Contribution(force, size)
  {
    assert [force][..0] == [];
  }

  /** The sum over `pre + [x] + post`, split at `x`. */
  lemma ForceSumSplit(pre: seq<Force>, x: Force, post: seq<Force>, size: real)
    ensures ForceSum((pre + [x]) + post, size)
         == Add(Add(ForceSum(pre, size), Contribution(x, size)), ForceSum(post, size))
  {
    ForceSumAppend(pre + [x], post, size);
    ForceSumAppend(pre, [x], size);
    ForceSumSingle(x, size);
  }

  lemma AddRearrange(p: Vec, v: Vec, q: Vec)
    ensures Add(Add(Add(p, Zero), q), v) == Add(Add(p, v), q)
  {
  }

  /** Switching one force off removes exactly its value from the sum. */
  lemma ForceSumToggleOff(forces: seq<Force>, i: nat, size: real)
    requires i < |forces| && forces[i].enabled
    ensures Add(ForceSum(forces[i := forces[i].(enabled := false)], size), ValueAt(forces[i], size))
         == ForceSum(forces, size)
  {
    var off := forces[i := forces[i].(enabled := false)];
    var pre, post := forces[..i], forces[i + 1..];
    var x, y := forces[i], off[i];
    assert forces == (pre + [x]) + post;
    assert off == (pre + [y]) + post;
    ForceSumSplit(pre, x, post, size);
    ForceSumSplit(pre, y, post, size);
    assert Contribution(y, size) == Zero;
    AddRearrange(ForceSum(pre, size), ValueAt(x, size), ForceSum(post, size));
  }

  // ---------------------------------------------------------------------
  // Number of sub-steps

  /** `Math.ceil(|v|)` for `|v|^2 == m`: the least natural number whose square reaches `m`. */
  function CeilSqrt(m: real): (n: nat)
    requires m >= 0.0
    ensures Mul(n as real, n as real) >= m
    ensures n == 0 || Mul((n - 1) as real, (n - 1) as real) < m
  {
    CeilSqrtFrom(m, 0)
  }

  function CeilSqrtFrom(m: real, k: nat): (n: nat)
    requires m >= 0.0
    requires k == 0 || Mul((k - 1) as real, (k - 1) as real) < m
    ensures k <= n
    ensures Mul(n as real, n as real) >= m
    ensures n == 0 || Mul((n - 1) as real, (n - 1) as real) < m
    decreases m.Floor + 1 - k
  {
    if Mul(k as real, k as real) >= m then k
    else
      SquareAtLeast(k);
      CeilSqrtFrom(m, k + 1)
  }

  lemma SquareAtLeast(k: nat)
    ensures Mul(k as real, k as real) >= k as real
  {
    if k > 0 {
      ProductAtLeast(k as real, 1.0, k as real);
    }
  }

  lemma ProductAtLeast(a: real, b: real, c: real)
    requires a >= 0.0 && c >= b && b >= 0.0
    ensures Mul(a, c) >= Mul(a, b)
  {
    if a > 0.0 && c > b {
      ProductPositive(a, c - b);
    }
  }

  /** A moving ball takes at least one sub-step. */
  lemma StepsPositive(v: Vec)
    requires v != Zero
    ensures CeilSqrt(MagSq(v)) >= 1
  {
    MagSqZero(v);
  }

  /** Each sub-step `v / ceil(|v|)` is at most one unit long, which keeps a ball from jumping over an edge. */
  lemma SubStepAtMostUnit(v: Vec)
    requires v != Zero
    ensures CeilSqrt(MagSq(v)) >= 1
    ensures MagSq(Div(v, CeilSqrt(MagSq(v)) as real)) <= 1.0
  {
    StepsPositive(v);
    var n := CeilSqrt(MagSq(v)) as real;
    var a := Div(v, n);
    assert Scale(n, a) == v;
    var nn := Mul(n, n);
    assert MagSq(Scale(n, a)) == nn * MagSq(a);
    SquareAtLeast(CeilSqrt(MagSq(v)));
  }

  /** Taking `n` sub-steps of `v / n` covers exactly `v`. */
  lemma FullSubStepsCoverVelocity(start: Vec, v: Vec, n: nat)
    requires n >= 1
    ensures Sample(start, Div(v, n as real), n) == Add(start, v)
  {
    ScaleDiv(n as real, v);
  }

  // ---------------------------------------------------------------------
  // Segment distance test

  /** p5's `constrain(n, low, high)`. */
  function Constrain(n: real, low: real, high: real): real {
    var m := if n < high then n else high;
    if m > low then m else low
  }

  /** `dist(p, q) <= radius`, decided on squared lengths. */
  predicate Within(p: Vec, q: Vec, radius: real) {
    0.0 <= radius && DistSq(p, q) <= radius * radius
  }

  /** The point a fraction `t` of the way from `a` to `b`. */
  function PointOn(a: Vec, b: Vec, t: real): Vec {
    Add(Scale(t, Sub(b, a)), a)
  }

  /** The clamped projection parameter of `point` onto the segment from `a` to `b`. */
  function Projection(a: Vec, b: Vec, point: Vec): (t: real)
    requires MagSq(Sub(b, a)) != 0.0
    ensures 0.0 <= t <= 1.0
  {
    Constrain(Dot(Sub(point, a), Sub(b, a)) / MagSq(Sub(b, a)), 0.0, 1.0)
  }

  /**
   * `edgeIntersectsPoint`: whether the circle of the given radius around
   * `point` reaches the segment from `edgeStart` to `edgeEnd`. A zero-length
   * edge is tested by the distance to its start and never divides.
   */
  function EdgeIntersectsPoint(edgeStart: Vec, edgeEnd: Vec, point: Vec, radius: real): bool {
    if MagSq(Sub(edgeEnd, edgeStart)) == 0.0 then Within(point, edgeStart, radius)
    else Within(point, PointOn(edgeStart, edgeEnd, Projection(edgeStart, edgeEnd, point)), radius)
  }

  /**
   * On an edge of zero squared length (by `MagSqZero`, one whose ends
   * coincide) the test is the distance to the edge's start.
   */
  lemma DegenerateEdgeTest(edgeStart: Vec, edgeEnd: Vec, point: Vec, radius: real)
    requires MagSq(Sub(edgeEnd, edgeStart)) == 0.0
    ensures EdgeIntersectsPoint(edgeStart, edgeEnd, point, radius) == Within(point, edgeStart, radius)
  {
  }

  /** The scalar part of the squared distance from `start + t line` to a point. */
  function Quad(t: real, d: real, l: real): real {
    t * (t * l) - 2.0 * (t * d)
  }

  lemma ProductNonNegative(a: real, b: real)
    requires (a >= 0.0 && b >= 0.0) || (a <= 0.0 && b <= 0.0)
    ensures Mul(a, b) >= 0.0
  {
    if a > 0.0 && b > 0.0 {
      ProductPositive(a, b);
    } else if a < 0.0 && b < 0.0 {
      ProductPositive(-a, -b);
      assert Mul(-a, -b) == Mul(a, b);
    }
  }

  lemma QuadDifference(t: real, c: real, d: real, l: real)
    ensures Quad(t, d, l) - Quad(c, d, l) == Mul(t - c, (t + c) * l - 2.0 * d)
  {
  }

  /** The clamped projection minimises the quadratic over [0, 1]. */
  lemma QuadMinimumOnUnit(d: real, l: real, t: real)
    requires l > 0.0 && 0.0 <= t <= 1.0
    ensures Quad(t, d, l) >= Quad(Constrain(d / l, 0.0, 1.0), d, l)
  {
    var q := d / l;
    var c := Constrain(q, 0.0, 1.0);
    QuadDifference(t, c, d, l);
    assert q * l == d;
    if q < 0.0 {
      ProductPositive(-q, l);
      assert Mul(-q, l) == -d;
      ProductNonNegative(t, l);
      ProductNonNegative(t, (t + c) * l - 2.0 * d);
    } else if q > 1.0 {
      ProductPositive(q - 1.0, l);
      assert Mul(q - 1.0, l) == d - l;
      ProductNonNegative(1.0 - t, l);
      assert Mul(1.0 - t, l) == l - t * l;
      ProductNonNegative(t - c, (t + c) * l - 2.0 * d);
    } else {
      assert (t + c) * l - 2.0 * d == Mul(t - c, l);
      SquareNonNegative(t - c);
      ProductNonNegative(Mul(t - c, t - c), l);
      assert Mul(t - c, Mul(t - c, l)) == Mul(Mul(t - c, t - c), l);
    }
  }

  lemma DistSqAlongLine(a: Vec, b: Vec, point: Vec, t: real)
    ensures DistSq(point, PointOn(a, b, t))
         == MagSq(Sub(point, a)) + Quad(t, Dot(Sub(point, a), Sub(b, a)), MagSq(Sub(b, a)))
  {
    ExpandMagSq(Sub(point, a), Sub(b, a), t);
    assert Sub(point, PointOn(a, b, t)) == Sub(Sub(point, a), Scale(t, Sub(b, a)));
  }

  /** No point of the segment is closer to `point` than the clamped projection. */
  lemma ClosestPointOnSegment(a: Vec, b: Vec, point: Vec, t: real)
    requires MagSq(Sub(b, a)) != 0.0 && 0.0 <= t <= 1.0
    ensures DistSq(point, PointOn(a, b, Projection(a, b, point))) <= DistSq(point, PointOn(a, b, t))
  {
    var l := MagSq(Sub(b, a));
    var d := Dot(Sub(point, a), Sub(b, a));
    DistSqAlongLine(a, b, point, t);
    DistSqAlongLine(a, b, point, Projection(a, b, point));
    QuadMinimumOnUnit(d, l, t);
  }

  lemma PointOnZeroEdge(a: Vec, b: Vec, t: real)
    requires Sub(b, a) == Zero
    ensures PointOn(a, b, t) == a
  {
    ScaleZero(t);
  }

  lemma ScaleZero(t: real)
    ensures Scale(t, Zero) == Zero
  {
  }

  /** A passing edge test has a witness on the segment: its start, or the clamped projection. */
  lemma EdgeTestWitness(a: Vec, b: Vec, point: Vec, radius: real)
    requires EdgeIntersectsPoint(a, b, point, radius)
    ensures exists t :: 0.0 <= t <= 1.0 && Within(point, PointOn(a, b, t), radius)
  {
    if MagSq(Sub(b, a)) == 0.0 {
      MagSqZero(Sub(b, a));
      PointOnZeroEdge(a, b, 0.0);
      assert Within(point, PointOn(a, b, 0.0), radius);
    } else {
      assert Within(point, PointOn(a, b, Projection(a, b, point)), radius);
    }
  }

  /** Any point of the segment within `radius` makes the edge test pass. */
  lemma EdgeTestFromWitness(a: Vec, b: Vec, point: Vec, radius: real, t: real)
    requires 0.0 <= t <= 1.0 && Within(point, PointOn(a, b, t), radius)
    ensures EdgeIntersectsPoint(a, b, point, radius)
  {
    if MagSq(Sub(b, a)) == 0.0 {
      MagSqZero(Sub(b, a));
      PointOnZeroEdge(a, b, t);
    } else {
      ClosestPointOnSegment(a, b, point, t);
    }
  }

  /**
   * The edge test holds exactly when some point of the segment lies within
   * `radius` of `point`.
   */
  lemma EdgeTestMeansSegmentWithin(a: Vec, b: Vec, point: Vec, radius: real)
    ensures EdgeIntersectsPoint(a, b, point, radius)
        <==> exists t :: 0.0 <= t <= 1.0 && Within(point, PointOn(a, b, t), radius)
  {
    if EdgeIntersectsPoint(a, b, point, radius) {
      EdgeTestWitness(a, b, point, radius);
    }
    forall t | 0.0 <= t <= 1.0 && Within(point, PointOn(a, b, t), radius)
      ensures EdgeIntersectsPoint(a, b, point, radius)
    {
      EdgeTestFromWitness(a, b, point, radius, t);
    }
  }

  // ---------------------------------------------------------------------
  // First-hit edge search over a closed vertex loop

  /** The vertex before `i` in a closed loop of `n` vertices. */
  function Prev(n: nat, i: nat): nat
    requires i < n
  {
    if i == 0 then n - 1 else i - 1
  }

  /** Edge `i` joins vertex `i` to the vertex before it; it is hit if it comes within `radius` of `p`. */
  predicate EdgeHit(p: Vec, vs: seq<Vec>, radius: real, i: nat)
    requires i < |vs|
  {
    EdgeIntersectsPoint(vs[i], vs[Prev(|vs|, i)], p, radius)
  }

  /** The (unnormalised) normal of edge `i`: the edge direction `v[j] - v[i]` turned a quarter turn. */
  function EdgeNormal(vs: seq<Vec>, i: nat): Vec
    requires i < |vs|
  {
    Perp(Sub(vs[Prev(|vs|, i)], vs[i]))
  }

  /** The index of the first edge at index `i` or later that is hit, if any. */
  function FirstEdgeHitFrom(p: Vec, vs: seq<Vec>, radius: real, i: nat): (r: Option<nat>)
    requires i <= |vs|
    ensures r.None? <==> forall k :: i <= k < |vs| ==> !EdgeHit(p, vs, radius, k)
    ensures r.Some? ==> i <= r.value < |vs| && EdgeHit(p, vs, radius, r.value)
    ensures r.Some? ==> forall k :: i <= k < r.value ==> !EdgeHit(p, vs, radius, k)
    decreases |vs| - i
  {
    if i == |vs| then None
    else if EdgeHit(p, vs, radius, i) then Some(i)
    else FirstEdgeHitFrom(p, vs, radius, i + 1)
  }

  /** The first edge, in vertex order, that is hit. */
  function FirstEdgeHit(p: Vec, vs: seq<Vec>, radius: real): (r: Option<nat>)
    ensures r.Some? ==> r.value < |vs|
    ensures vs == [] ==> r.None?
  {
    FirstEdgeHitFrom(p, vs, radius, 0)
  }

  /** The result of `collides`: the normal of the first edge that is hit, or nothing. */
  function FirstHit(p: Vec, vs: seq<Vec>, radius: real): Option<Vec> {
    match FirstEdgeHit(p, vs, radius)
    case None => None
    case Some(k) => Some(EdgeNormal(vs, k))
  }

  /** A returned normal is orthogonal to the edge it belongs to. */
  lemma FirstHitNormalOrthogonal(p: Vec, vs: seq<Vec>, radius: real)
    requires FirstHit(p, vs, radius).Some?
    ensures var k := FirstEdgeHit(p, vs, radius).value;
      Dot(FirstHit(p, vs, radius).value, Sub(vs[Prev(|vs|, k)], vs[k])) == 0.0
  {
    var k := FirstEdgeHit(p, vs, radius).value;
    PerpOrthogonal(Sub(vs[Prev(|vs|, k)], vs[k]));
  }

  // ---------------------------------------------------------------------
  // Sub-stepped motion

  /** The `j`-th tentative position when stepping from `start` by `step`. */
  function Sample(start: Vec, step: Vec, j: nat): Vec {
    Add(start, Scale(j as real, step))
  }

  datatype Motion = Motion(position: Vec, velocity: Vec)

  /** No tentative position after sample `i` up to sample `k` hits an edge. */
  ghost predicate ClearUpTo(start: Vec, step: Vec, i: nat, k: nat, vs: seq<Vec>, radius: real) {
    forall j :: i < j <= k ==> FirstHit(Sample(start, step, j), vs, radius).None?
  }

  /**
   * The motion `m` stopped at sample `k`: every sub-step up to `k` was taken;
   * either all `steps` were taken and the velocity is kept, or sub-step
   * `k + 1` hit an edge and the velocity was reflected about its normal.
   */
  ghost predicate StoppedAt(start: Vec, step: Vec, steps: nat, i: nat, k: nat, vel: Vec,
                            vs: seq<Vec>, radius: real, m: Motion) {
    && i <= k <= steps
    && m.position == Sample(start, step, k)
    && ClearUpTo(start, step, i, k, vs, radius)
    && (k == steps ==> m.velocity == vel)
    && (k < steps ==>
          var hit := FirstHit(Sample(start, step, k + 1), vs, radius);
          hit.Some? && m.velocity == Reflect(vel, hit.value))
  }

  /**
   * The position and velocity after sub-steps `i + 1 .. steps` from sample
   * `i`: the first sub-step whose tentative position hits an edge is not
   * taken, the velocity is reflected about that edge's normal and no later
   * sub-step runs.
   */
  function Glide(start: Vec, step: Vec, steps: nat, i: nat, vel: Vec, vs: seq<Vec>, radius: real): (m: Motion)
    requires i <= steps
    ensures exists k: nat :: StoppedAt(start, step, steps, i, k, vel, vs, radius, m)
    decreases steps - i
  {
    if i == steps then
      var m := Motion(Sample(start, step, i), vel);
      assert StoppedAt(start, step, steps, i, i, vel, vs, radius, m);
      m
    else match FirstHit(Sample(start, step, i + 1), vs, radius)
      case Some(n) =>
        var m := Motion(Sample(start, step, i), Reflect(vel, n));
        assert StoppedAt(start, step, steps, i, i, vel, vs, radius, m);
        m
      case None =>
        var m := Glide(start, step, steps, i + 1, vel, vs, radius);
        StoppedEarlier(start, step, steps, i, i + 1, vel, vs, radius, m);
        m
  }

  /** A motion that stopped after sample `i + 1` also stopped after sample `i` when sample `i + 1` is clear. */
  lemma StoppedEarlier(start: Vec, step: Vec, steps: nat, i: nat, j: nat, vel: Vec, vs: seq<Vec>, radius: real, m: Motion)
    requires j == i + 1
    requires FirstHit(Sample(start, step, j), vs, radius).None?
    requires exists k: nat :: StoppedAt(start, step, steps, j, k, vel, vs, radius, m)
    ensures exists k: nat :: StoppedAt(start, step, steps, i, k, vel, vs, radius, m)
  {
    var k: nat :| StoppedAt(start, step, steps, j, k, vel, vs, radius, m);
    assert StoppedAt(start, step, steps, i, k, vel, vs, radius, m);
  }

  /** The next tentative position is one step further. */
  lemma SampleNext(start: Vec, step: Vec, i: nat)
    ensures Add(Sample(start, step, i), step) == Sample(start, step, i + 1)
  {
  }

  /** One sub-step of the glide. */
  lemma GlideNext(start: Vec, step: Vec, steps: nat, i: nat, vel: Vec, vs: seq<Vec>, radius: real)
    requires i < steps
    ensures var hit := FirstHit(Sample(start, step, i + 1), vs, radius);
      && (hit.None? ==> Glide(start, step, steps, i, vel, vs, radius) == Glide(start, step, steps, i + 1, vel, vs, radius))
      && (hit.Some? ==> Glide(start, step, steps, i, vel, vs, radius) == Motion(Sample(start, step, i), Reflect(vel, hit.value)))
  {
  }

  /** A glide never changes the speed: reflection keeps the squared length. */
  lemma GlideKeepsSpeed(start: Vec, step: Vec, steps: nat, vel: Vec, vs: seq<Vec>, radius: real)
    ensures MagSq(Glide(start, step, steps, 0, vel, vs, radius).velocity) == MagSq(vel)
  {
    var m := Glide(start, step, steps, 0, vel, vs, radius);
    var k: nat :| StoppedAt(start, step, steps, 0, k, vel, vs, radius, m);
    if k < steps {
      ReflectPreservesMagSq(vel, FirstHit(Sample(start, step, k + 1), vs, radius).value);
    }
  }

  /** With no tentative position hitting an edge, the glide ends at the last sample with the velocity kept. */
  lemma {:induction false} GlideWithoutHit(start: Vec, step: Vec, steps: nat, i: nat, vel: Vec, vs: seq<Vec>, radius: real)
    requires i <= steps
    requires ClearUpTo(start, step, i, steps, vs, radius)
    ensures Glide(start, step, steps, i, vel, vs, radius) == Motion(Sample(start, step, steps), vel)
    decreases steps - i
  {
    if i < steps {
      assert FirstHit(Sample(start, step, i + 1), vs, radius).None?;
      GlideWithoutHit(start, step, steps, i + 1, vel, vs, radius);
    }
  }

  /** A ball that moved at least one sub-step ends the frame touching no edge. */
  lemma GlideEndsClear(start: Vec, step: Vec, steps: nat, vel: Vec, vs: seq<Vec>, radius: real)
    requires Glide(start, step, steps, 0, vel, vs, radius).position != start
    ensures FirstHit(Glide(start, step, steps, 0, vel, vs, radius).position, vs, radius).None?
  {
    var m := Glide(start, step, steps, 0, vel, vs, radius);
    var k: nat :| StoppedAt(start, step, steps, 0, k, vel, vs, radius, m);
    assert Sample(start, step, 0) == start;
    assert k > 0;
  }

  /** The kinematic state `update` reads and writes. */
  datatype Kinematic = Kinematic(position: Vec, velocity: Vec, acceleration: Vec)

  /**
   * `update`: the velocity takes the acceleration; a ball whose velocity is
   * then zero returns early, keeping its position and its acceleration;
   * otherwise it glides in `ceil(|v|)` sub-steps of `v / ceil(|v|)` and its
   * acceleration is cleared.
   */
  function UpdateStep(k: Kinematic, edges: seq<Vec>, radius: real): Kinematic {
    var v := Add(k.velocity, k.acceleration);
    if v == Zero then Kinematic(k.position, v, k.acceleration)
    else
      StepsPositive(v);
      var steps := CeilSqrt(MagSq(v));
      var m := Glide(k.position, Div(v, steps as real), steps, 0, v, edges, radius);
      Kinematic(m.position, m.velocity, Zero)
  }

  /** A ball left at rest by its acceleration keeps position and acceleration (the early return). */
  lemma UpdateAtRest(k: Kinematic, edges: seq<Vec>, radius: real)
    requires Add(k.velocity, k.acceleration) == Zero
    ensures UpdateStep(k, edges, radius) == Kinematic(k.position, Zero, k.acceleration)
  {
  }

  /** Without a hit on the way, the ball moves by exactly its new velocity, which it keeps. */
  lemma UpdateWithoutHit(k: Kinematic, edges: seq<Vec>, radius: real)
    requires Add(k.velocity, k.acceleration) != Zero
    requires var v := Add(k.velocity, k.acceleration);
      var steps := CeilSqrt(MagSq(v));
      steps >= 1 && ClearUpTo(k.position, Div(v, steps as real), 0, steps, edges, radius)
    ensures var v := Add(k.velocity, k.acceleration);
      UpdateStep(k, edges, radius) == Kinematic(Add(k.position, v), v, Zero)
  {
    var v := Add(k.velocity, k.acceleration);
    var steps := CeilSqrt(MagSq(v));
    GlideWithoutHit(k.position, Div(v, steps as real), steps, 0, v, edges, radius);
    FullSubStepsCoverVelocity(k.position, v, steps);
  }

  /** A moving ball's speed after `update` is its speed after taking the acceleration. */
  lemma UpdateKeepsSpeed(k: Kinematic, edges: seq<Vec>, radius: real)
    ensures MagSq(UpdateStep(k, edges, radius).velocity) == MagSq(Add(k.velocity, k.acceleration))
  {
    var v := Add(k.velocity, k.acceleration);
    if v != Zero {
      StepsPositive(v);
      var steps := CeilSqrt(MagSq(v));
      GlideKeepsSpeed(k.position, Div(v, steps as real), steps, v, edges, radius);
    }
  }

  /** `update` of a moving ball stopped at sample `j` of its glide. */
  ghost predicate UpdateStoppedAt(k: Kinematic, edges: seq<Vec>, radius: real, j: nat)
    requires Add(k.velocity, k.acceleration) != Zero
  {
    var v := Add(k.velocity, k.acceleration);
    StepsPositive(v);
    var steps := CeilSqrt(MagSq(v));
    var r := UpdateStep(k, edges, radius);
    StoppedAt(k.position, Div(v, steps as real), steps, 0, j, v, edges, radius, Motion(r.position, r.velocity))
  }

  /**
   * The sub-steps taken are exactly those before the first tentative
   * position that hits an edge; a hit reflects the velocity once about that
   * edge's normal; at most `ceil(|v|)` sub-steps run.
   */
  lemma UpdateStopsAtFirstHit(k: Kinematic, edges: seq<Vec>, radius: real)
    requires Add(k.velocity, k.acceleration) != Zero
    ensures exists j: nat :: UpdateStoppedAt(k, edges, radius, j)
  {
    var v := Add(k.velocity, k.acceleration);
    StepsPositive(v);
    var steps := CeilSqrt(MagSq(v));
    var m := Glide(k.position, Div(v, steps as real), steps, 0, v, edges, radius);
    var j: nat :| StoppedAt(k.position, Div(v, steps as real), steps, 0, j, v, edges, radius, m);
    assert UpdateStoppedAt(k, edges, radius, j);
  }

  // ---------------------------------------------------------------------
  // Ball-ball response

  /** p5's `normalize`, given the vector's length: a zero length leaves the vector as it is. */
  function Normalize(v: Vec, len: real): Vec {
    if len != 0.0 then Scale(1.0 / len, v) else v
  }

  /** A ball's position and velocity. */
  datatype Body = Body(position: Vec, velocity: Vec)

  /**
   * The new state of this ball and a touching ball after one pass of
   * `checkSiblingCollision`'s loop body, where `distance` is the length of
   * `other.position - mine.position`: a size-weighted impulse along the
   * normalised line of centres, and a push apart by the overlap.
   */
  function SiblingResponse(mine: Body, thisSize: real, other: Body, otherSize: real, distance: real): (r: (Body, Body))
    requires thisSize > 0.0 && otherSize > 0.0
  {
    var sizeDistance := otherSize + thisSize;
    var normal := Normalize(Sub(other.position, mine.position), distance);
    var dot := Dot(Sub(other.velocity, mine.velocity), normal);
    var impulse := Scale(2.0 * dot / (otherSize + thisSize), normal);
    var bounce := Scale(sizeDistance - distance, normal);
    (Body(Sub(mine.position, Div(bounce, thisSize)), Add(mine.velocity, Div(impulse, thisSize))),
     Body(Add(other.position, Div(bounce, otherSize)), Sub(other.velocity, Div(impulse, otherSize))))
  }

  /** `k * (v / k) == v` for a non-zero scalar. */
  lemma ScaleDiv(k: real, v: Vec)
    requires k != 0.0
    ensures Scale(k, Div(v, k)) == v
  {
    assert k * (v.x / k) == v.x;
    assert k * (v.y / k) == v.y;
  }

  lemma ScaleAddDiv(k: real, v: Vec, w: Vec)
    requires k != 0.0
    ensures Scale(k, Add(v, Div(w, k))) == Add(Scale(k, v), w)
  {
    ScaleDiv(k, w);
  }

  lemma ScaleSubDiv(k: real, v: Vec, w: Vec)
    requires k != 0.0
    ensures Scale(k, Sub(v, Div(w, k))) == Sub(Scale(k, v), w)
  {
    ScaleDiv(k, w);
  }

  /**
   * The response conserves the size-weighted sums of velocities and of
   * positions: `thisSize * dv_this + otherSize * dv_other == 0`, and the
   * same for the position changes.
   */
  lemma SiblingResponseBalanced(mine: Body, thisSize: real, other: Body, otherSize: real, distance: real)
    requires thisSize > 0.0 && otherSize > 0.0
    ensures var (mine', other') := SiblingResponse(mine, thisSize, other, otherSize, distance);
      && Add(Scale(thisSize, mine'.velocity), Scale(otherSize, other'.velocity))
         == Add(Scale(thisSize, mine.velocity), Scale(otherSize, other.velocity))
      && Add(Scale(thisSize, mine'.position), Scale(otherSize, other'.position))
         == Add(Scale(thisSize, mine.position), Scale(otherSize, other.position))
  {
    var normal := Normalize(Sub(other.position, mine.position), distance);
    var impulse := Scale(2.0 * Dot(Sub(other.velocity, mine.velocity), normal) / (otherSize + thisSize), normal);
    var bounce := Scale(otherSize + thisSize - distance, normal);
    ScaleAddDiv(thisSize, mine.velocity, impulse);
    ScaleSubDiv(otherSize, other.velocity, impulse);
    ScaleSubDiv(thisSize, mine.position, bounce);
    ScaleAddDiv(otherSize, other.position, bounce);
  }

  lemma DotScale(k: real, v: Vec, w: Vec)
    ensures Dot(Scale(k, v), w) == k * Dot(v, w)
  {
  }

  lemma DotDiv(v: Vec, k: real, w: Vec)
    requires k != 0.0
    ensures Dot(Div(v, k), w) == Dot(v, w) / k
  {
  }

  lemma DotSub(a: Vec, b: Vec, w: Vec)
    ensures Dot(Sub(a, b), w) == Dot(a, w) - Dot(b, w)
  {
  }

  lemma DotAdd(a: Vec, b: Vec, w: Vec)
    ensures Dot(Add(a, b), w) == Dot(a, w) + Dot(b, w)
  {
  }

  /** The normal and everything scaled from it is orthogonal to the tangent `Perp(d)`. */
  lemma NormalOrthogonal(d: Vec, distance: real, c: real, k: real)
    requires k != 0.0
    ensures Dot(Div(Scale(c, Normalize(d, distance)), k), Perp(d)) == 0.0
  {
    PerpOrthogonal(d);
    var normal := Normalize(d, distance);
    assert Dot(normal, Perp(d)) == 0.0 by {
      if distance != 0.0 {
        DotScale(1.0 / distance, d, Perp(d));
        assert Dot(d, Perp(d)) == Dot(Perp(d), d);
      }
    }
    DotScale(c, normal, Perp(d));
    DotDiv(Scale(c, normal), k, Perp(d));
  }

  /** Every change lies along the line of centres: the tangential components are kept. */
  lemma SiblingResponseAlongCentres(mine: Body, thisSize: real, other: Body, otherSize: real, distance: real)
    requires thisSize > 0.0 && otherSize > 0.0
    ensures var (mine', other') := SiblingResponse(mine, thisSize, other, otherSize, distance);
      var t := Perp(Sub(other.position, mine.position));
      && Dot(mine'.velocity, t) == Dot(mine.velocity, t)
      && Dot(other'.velocity, t) == Dot(other.velocity, t)
      && Dot(mine'.position, t) == Dot(mine.position, t)
      && Dot(other'.position, t) == Dot(other.position, t)
  {
    var d := Sub(other.position, mine.position);
    var t := Perp(d);
    var normal := Normalize(d, distance);
    var ci := 2.0 * Dot(Sub(other.velocity, mine.velocity), normal) / (otherSize + thisSize);
    var cb := otherSize + thisSize - distance;
    NormalOrthogonal(d, distance, ci, thisSize);
    NormalOrthogonal(d, distance, ci, otherSize);
    NormalOrthogonal(d, distance, cb, thisSize);
    NormalOrthogonal(d, distance, cb, otherSize);
    DotAdd(mine.velocity, Div(Scale(ci, normal), thisSize), t);
    DotSub(other.velocity, Div(Scale(ci, normal), otherSize), t);
    DotSub(mine.position, Div(Scale(cb, normal), thisSize), t);
    DotAdd(other.position, Div(Scale(cb, normal), otherSize), t);
  }

  lemma DivPositive(a: real, b: real)
    requires a > 0.0 && b > 0.0
    ensures a / b > 0.0
  {
  }

  lemma ScaleScale(a: real, b: real, v: Vec)
    ensures Scale(a, Scale(b, v)) == Scale(a * b, v)
  {
  }

  lemma DivScale(q: real, v: Vec, k: real)
    requires k != 0.0
    ensures Div(Scale(q, v), k) == Scale(q / k, v)
  {
  }

  lemma SeparationGrows(tp: Vec, op: Vec, a: real, b: real)
    ensures Sub(Add(op, Scale(a, Sub(op, tp))), Sub(tp, Scale(b, Sub(op, tp))))
         == Scale(1.0 + a + b, Sub(op, tp))
  {
  }

  /**
   * An overlapping pair at a positive distance is pushed apart along the
   * line of centres: their separation is scaled by a factor above one.
   */
  lemma SiblingPushSeparates(mine: Body, thisSize: real, other: Body, otherSize: real, distance: real)
    requires thisSize > 0.0 && otherSize > 0.0
    requires 0.0 < distance < thisSize + otherSize
    ensures var (mine', other') := SiblingResponse(mine, thisSize, other, otherSize, distance);
      exists k :: k > 1.0 && Sub(other'.position, mine'.position) == Scale(k, Sub(other.position, mine.position))
  {
    var d := Sub(other.position, mine.position);
    var overlap := otherSize + thisSize - distance;
    DivPositive(1.0, distance);
    ProductPositive(overlap, 1.0 / distance);
    var q := overlap * (1.0 / distance);
    ScaleScale(overlap, 1.0 / distance, d);
    var bounce := Scale(q, d);
    DivScale(q, d, thisSize);
    DivScale(q, d, otherSize);
    DivPositive(q, thisSize);
    DivPositive(q, otherSize);
    SeparationGrows(mine.position, other.position, q / otherSize, q / thisSize);
    var k := 1.0 + q / otherSize + q / thisSize;
    assert Sub(other.position, mine.position) == d;
    assert Normalize(d, distance) == Scale(1.0 / distance, d);
    assert Scale(overlap, Normalize(d, distance)) == bounce;
    var (mine', other') := SiblingResponse(mine, thisSize, other, otherSize, distance);
    assert mine'.position == Sub(mine.position, Scale(q / thisSize, d));
    assert other'.position == Add(other.position, Scale(q / otherSize, d));
  }

  /** When `distance` is the exact length, the touch test on lengths is the test on squared lengths. */
  lemma TouchBySquares(distSq: real, distance: real, sizeSum: real)
    requires distance >= 0.0 && Mul(distance, distance) == distSq && sizeSum > 0.0
    ensures distance <= sizeSum <==> distSq <= Mul(sizeSum, sizeSum)
  {
    if distance <= sizeSum {
      ProductAtLeast(distance, distance, sizeSum);
      ProductAtLeast(sizeSum, distance, sizeSum);
      assert Mul(distance, sizeSum) == Mul(sizeSum, distance);
    } else {
      ProductPositive(distance - sizeSum, distance);
      ProductPositive(distance - sizeSum, sizeSum);
      assert Mul(distance - sizeSum, distance) == Mul(distance, distance) - Mul(sizeSum, distance);
      assert Mul(distance - sizeSum, sizeSum) == Mul(distance, sizeSum) - Mul(sizeSum, sizeSum);
    }
  }

  // ---------------------------------------------------------------------
  // One ball's pass over the list of balls

  /**
   * Ball sizes. `size || 5` never leaves a size of zero, but a negative size
   * typed into the size field is kept; two touching balls of sizes `s` and
   * `-s` would make the impulse divide by zero, which yields `NaN` in the
   * source and has no counterpart over `real`. Sizes are therefore positive.
   */
  type Size = s: real | s > 0.0 witness 5.0

  /** A list entry as the pass sees it: the ball's state, its size, and whether it is the ball itself. */
  datatype Entry = Entry(body: Body, size: Size, isSelf: bool)

  /**
   * One iteration of `checkSiblingCollision`'s loop: the ball itself is
   * skipped, a ball farther than the size sum is untouched, and a touching
   * ball is resolved with `SiblingResponse`. `sqrt` stands for the square
   * root behind p5's `dist`.
   */
  function SiblingStep(mine: Body, mySize: Size, e: Entry, sqrt: real -> real): (Body, Body) {
    if e.isSelf then (mine, e.body)
    else
      var distance := sqrt(DistSq(mine.position, e.body.position));
      if distance <= e.size + mySize then SiblingResponse(mine, mySize, e.body, e.size, distance)
      else (mine, e.body)
  }

  /**
   * The whole loop: the state of the ball after visiting the entries in
   * order, and the new state of every entry's ball (an entry for the ball
   * itself keeps its old state here).
   */
  function SiblingPass(mine: Body, mySize: Size, es: seq<Entry>, sqrt: real -> real): (r: (Body, seq<Body>))
    ensures |r.1| == |es|
  {
    if es == [] then (mine, [])
    else
      var (m, outs) := SiblingPass(mine, mySize, es[..|es| - 1], sqrt);
      var (m', o) := SiblingStep(m, mySize, es[|es| - 1], sqrt);
      (m', outs + [o])
  }

  /** The entry at `k` is resolved against the state the ball has after the entries before it. */
  lemma {:induction false} PassEntry(mine: Body, mySize: Size, es: seq<Entry>, sqrt: real -> real, k: nat)
    requires k < |es|
    ensures SiblingPass(mine, mySize, es, sqrt).1[k]
         == SiblingStep(SiblingPass(mine, mySize, es[..k], sqrt).0, mySize, es[k], sqrt).1
  {
    var init := es[..|es| - 1];
    if k < |es| - 1 {
      PassEntry(mine, mySize, init, sqrt, k);
      assert init[..k] == es[..k];
    }
  }

  /** The ball's own entry is skipped: neither the ball's running state nor its own entry changes there. */
  lemma PassSkipsSelf(mine: Body, mySize: Size, es: seq<Entry>, sqrt: real -> real, k: nat)
    requires k < |es| && es[k].isSelf
    ensures SiblingPass(mine, mySize, es[..k + 1], sqrt).0 == SiblingPass(mine, mySize, es[..k], sqrt).0
    ensures SiblingPass(mine, mySize, es, sqrt).1[k] == es[k].body
  {
    assert es[..k + 1][..k] == es[..k];
    PassEntry(mine, mySize, es, sqrt, k);
  }

  /**
   * A ball farther from this ball than their size sum, when it is visited, is untouched,
   * and this ball's running state does not change at that entry either.
   */
  lemma PassFarUntouched(mine: Body, mySize: Size, es: seq<Entry>, sqrt: real -> real, k: nat)
    requires k < |es|
    requires sqrt(DistSq(SiblingPass(mine, mySize, es[..k], sqrt).0.position, es[k].body.position)) > es[k].size + mySize
    ensures SiblingPass(mine, mySize, es[..k + 1], sqrt).0 == SiblingPass(mine, mySize, es[..k], sqrt).0
    ensures SiblingPass(mine, mySize, es, sqrt).1[k] == es[k].body
  {
    assert es[..k + 1][..k] == es[..k];
    PassEntry(mine, mySize, es, sqrt, k);
  }

  /** With no other ball touching, the pass changes nothing. */
  lemma {:induction false} PassNoTouch(mine: Body, mySize: Size, es: seq<Entry>, sqrt: real -> real)
    requires forall k :: 0 <= k < |es| && !es[k].isSelf ==>
               sqrt(DistSq(mine.position, es[k].body.position)) > es[k].size + mySize
    ensures SiblingPass(mine, mySize, es, sqrt).0 == mine
    ensures Bodies(es) == SiblingPass(mine, mySize, es, sqrt).1
  {
    if es != [] {
      var init := es[..|es| - 1];
      PassNoTouch(mine, mySize, init, sqrt);
      assert Bodies(es) == Bodies(init) + [es[|es| - 1].body];
    }
  }

  /** The states of the entries' balls. */
  function Bodies(es: seq<Entry>): (r: seq<Body>)
    ensures |r| == |es|
    ensures forall k :: 0 <= k < |es| ==> r[k] == es[k].body
  {
    if es == [] then []
    else Bodies(es[..|es| - 1]) + [es[|es| - 1].body]
  }

  /** The size-weighted sum of the velocities of the entries other than the ball itself. */
  function WeightedVelocity(bodies: seq<Body>, es: seq<Entry>): Vec
    requires |bodies| == |es|
  {
    if es == [] then Zero
    else
      var rest := WeightedVelocity(bodies[..|es| - 1], es[..|es| - 1]);
      if es[|es| - 1].isSelf then rest else Add(rest, Scale(es[|es| - 1].size, bodies[|es| - 1].velocity))
  }

  /** The size-weighted sum of the positions of the entries other than the ball itself. */
  function WeightedPosition(bodies: seq<Body>, es: seq<Entry>): Vec
    requires |bodies| == |es|
  {
    if es == [] then Zero
    else
      var rest := WeightedPosition(bodies[..|es| - 1], es[..|es| - 1]);
      if es[|es| - 1].isSelf then rest else Add(rest, Scale(es[|es| - 1].size, bodies[|es| - 1].position))
  }

  lemma Regroup(a: Vec, a': Vec, b: Vec, b': Vec, w: Vec, w': Vec, m: Vec)
    requires Add(a', b') == Add(a, b)
    requires Add(a, w') == Add(m, w)
    ensures Add(a', Add(w', b')) == Add(m, Add(w, b))
  {
  }

  /** One step keeps the size-weighted sums of the pair. */
  lemma SiblingStepBalanced(mine: Body, mySize: Size, e: Entry, sqrt: real -> real)
    requires !e.isSelf
    ensures var (m', o') := SiblingStep(mine, mySize, e, sqrt);
      && Add(Scale(mySize, m'.velocity), Scale(e.size, o'.velocity))
         == Add(Scale(mySize, mine.velocity), Scale(e.size, e.body.velocity))
      && Add(Scale(mySize, m'.position), Scale(e.size, o'.position))
         == Add(Scale(mySize, mine.position), Scale(e.size, e.body.position))
  {
    var distance := sqrt(DistSq(mine.position, e.body.position));
    if distance <= e.size + mySize {
      SiblingResponseBalanced(mine, mySize, e.body, e.size, distance);
    }
  }

  /**
   * The pass conserves the size-weighted sum of all velocities (this ball's
   * and every other listed ball's): what is added to one ball is taken from
   * another.
   */
  lemma {:induction false} PassConservesMomentum(mine: Body, mySize: Size, es: seq<Entry>, sqrt: real -> real)
    ensures var (m, outs) := SiblingPass(mine, mySize, es, sqrt);
      Add(Scale(mySize, m.velocity), WeightedVelocity(outs, es))
      == Add(Scale(mySize, mine.velocity), WeightedVelocity(Bodies(es), es))
  {
    if es != [] {
      var n := |es| - 1;
      var init, e := es[..n], es[n];
      PassConservesMomentum(mine, mySize, init, sqrt);
      var (m, outs) := SiblingPass(mine, mySize, init, sqrt);
      var (m', o) := SiblingStep(m, mySize, e, sqrt);
      assert (outs + [o])[..n] == outs;
      assert Bodies(es)[..n] == Bodies(init);
      if !e.isSelf {
        SiblingStepBalanced(m, mySize, e, sqrt);
        Regroup(Scale(mySize, m.velocity), Scale(mySize, m'.velocity),
                Scale(e.size, e.body.velocity), Scale(e.size, o.velocity),
                WeightedVelocity(Bodies(init), init), WeightedVelocity(outs, init),
                Scale(mySize, mine.velocity));
      }
    }
  }

  /** The pass conserves the size-weighted sum of all positions: the pushes cancel. */
  lemma {:induction false} PassConservesMoment(mine: Body, mySize: Size, es: seq<Entry>, sqrt: real -> real)
    ensures var (m, outs) := SiblingPass(mine, mySize, es, sqrt);
      Add(Scale(mySize, m.position), WeightedPosition(outs, es))
      == Add(Scale(mySize, mine.position), WeightedPosition(Bodies(es), es))
  {
    if es != [] {
      var n := |es| - 1;
      var init, e := es[..n], es[n];
      PassConservesMoment(mine, mySize, init, sqrt);
      var (m, outs) := SiblingPass(mine, mySize, init, sqrt);
      var (m', o) := SiblingStep(m, mySize, e, sqrt);
      assert (outs + [o])[..n] == outs;
      assert Bodies(es)[..n] == Bodies(init);
      if !e.isSelf {
        SiblingStepBalanced(m, mySize, e, sqrt);
        Regroup(Scale(mySize, m.position), Scale(mySize, m'.position),
                Scale(e.size, e.body.position), Scale(e.size, o.position),
                WeightedPosition(Bodies(init), init), WeightedPosition(outs, init),
                Scale(mySize, mine.position));
      }
    }
  }
}
