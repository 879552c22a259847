/**
 * The vertex lists the drawer produces: the four corners of a square, the
 * points of a circle approximated by `segments` vertices, and the dispatch
 * on the shape name. `cos` and `sin` are parameters.
 */
module Drawing {
  import opened Vectors
  import opened Wrappers
  import opened App

  /** p5's `TWO_PI`, the double closest to 2 pi. */
  const TwoPi: real := 6.283185307179586

  /** `calculateSquareVertices`: top-left, top-right, bottom-right, bottom-left, at `position +- size / 2`. */
  function SquareVertices(position: Vec, size: real): (r: seq<Vec>)
    ensures |r| == 4
  {
    var half := size / 2.0;
    [Vec(position.x - half, position.y - half),
     Vec(position.x + half, position.y - half),
     Vec(position.x + half, position.y + half),
     Vec(position.x - half, position.y + half)]
  }

  /**
   * For a positive size the corners are in the stated order on screen (y
   * grows downwards): the first two share the top edge, the last two the
   * bottom edge, and the first and last the left edge.
   */
  lemma SquareCornerOrder(position: Vec, size: real)
    requires size > 0.0
    ensures var r := SquareVertices(position, size);
      && r[0].y == r[1].y < r[2].y == r[3].y
      && r[0].x == r[3].x < r[1].x == r[2].x
  {
  }

  /** Every corner is offset from the centre by half the size along both axes. */
  lemma SquareCornerOffsets(position: Vec, size: real)
    ensures forall i :: 0 <= i < 4 ==>
      var v := SquareVertices(position, size)[i];
      && (v.x - position.x == size / 2.0 || position.x - v.x == size / 2.0)
      && (v.y - position.y == size / 2.0 || position.y - v.y == size / 2.0)
  {
  }

  /** The mean of the four corners is the centre. */
  lemma SquareCentred(position: Vec, size: real)
    ensures var r := SquareVertices(position, size);
      Scale(0.25, Add(Add(r[0], r[1]), Add(r[2], r[3]))) == position
  {
  }

  /** Moving the centre by `d` moves every corner by `d`. */
  lemma SquareTranslates(position: Vec, size: real, d: Vec)
    ensures forall i :: 0 <= i < 4 ==>
      SquareVertices(Add(position, d), size)[i] == Add(SquareVertices(position, size)[i], d)
  {
  }

  /** p5's `map(n, start1, stop1, start2, stop2)`, which callers here use with `start1 != stop1`. */
  function MapRange(n: real, start1: real, stop1: real, start2: real, stop2: real): real
    requires stop1 != start1
  {
    (n - start1) / (stop1 - start1) * (stop2 - start2) + start2
  }

  /** The angle of vertex `i` of `segments`: `map(i, 0, segments, 0, TWO_PI)`. */
  function Angle(i: nat, segments: nat): real
    requires segments > 0
  {
    MapRange(i as real, 0.0, segments as real, 0.0, TwoPi)
  }

  /** The number of vertices the loop `for (i = 0; i < segments; i++)` pushes. */
  function SegmentCount(segments: int): nat {
    if segments > 0 then segments else 0
  }

  /** `calculateCircleVertices`: vertex `i` is at angle `Angle(i)` on the circle of the given radius. */
  function CircleVertices(position: Vec, radius: real, segments: int, cos: real -> real, sin: real -> real): (r: seq<Vec>)
    ensures |r| == SegmentCount(segments)
  {
    seq(SegmentCount(segments), i requires 0 <= i < SegmentCount(segments) =>
      var angle := Angle(i, segments);
      Vec(position.x + cos(angle) * radius, position.y + sin(angle) * radius))
  }

  lemma DivLessThanOne(a: real, b: real)
    requires 0.0 <= a < b
    ensures 0.0 <= a / b < 1.0
  {
    assert a / b * b == a;
    if a / b >= 1.0 {
      ProductAtLeastOne(a / b, b);
    }
  }

  lemma ProductAtLeastOne(q: real, b: real)
    requires q >= 1.0 && b > 0.0
    ensures q * b >= b
  {
    assert q * b - b == (q - 1.0) * b;
    if q > 1.0 {
      ProductPositive(q - 1.0, b);
      assert Mul(q - 1.0, b) == (q - 1.0) * b;
    }
  }

  lemma MulMonotone(a: real, b: real, k: real)
    requires a < b && k > 0.0
    ensures a * k < b * k
  {
    ProductPositive(b - a, k);
    assert Mul(b - a, k) == b * k - a * k;
  }

  lemma DivMonotone(a: real, c: real, b: real)
    requires a < c && b > 0.0
    ensures a / b < c / b
  {
    var qa, qc := a / b, c / b;
    assert qa * b == a && qc * b == c;
    if qa > qc {
      MulMonotone(qc, qa, b);
    }
  }

  /** The angles start at 0, stay below `TWO_PI` and increase with the index. */
  lemma AnglesIncrease(i: nat, j: nat, segments: nat)
    requires i < j < segments
    ensures Angle(0, segments) == 0.0
    ensures 0.0 <= Angle(i, segments) < Angle(j, segments) < TwoPi
  {
    var n := segments as real;
    DivLessThanOne(j as real, n);
    DivLessThanOne(i as real, n);
    DivMonotone(i as real, j as real, n);
    MulMonotone((i as real) / n, (j as real) / n, TwoPi);
    MulMonotone((j as real) / n, 1.0, TwoPi);
    ProductNonNegativeReal((i as real) / n, TwoPi);
  }

  lemma ProductNonNegativeReal(a: real, b: real)
    requires a >= 0.0 && b > 0.0
    ensures a * b >= 0.0
  {
    if a > 0.0 {
      ProductPositive(a, b);
      assert Mul(a, b) == a * b;
    }
  }

  /** With `cos(0) == 1` and `sin(0) == 0`, the first vertex lies `radius` to the right of the centre. */
  lemma FirstCircleVertex(position: Vec, radius: real, segments: int, cos: real -> real, sin: real -> real)
    requires segments > 0
    requires cos(0.0) == 1.0 && sin(0.0) == 0.0
    ensures CircleVertices(position, radius, segments, cos, sin)[0] == Vec(position.x + radius, position.y)
  {
    assert Angle(0, segments) == 0.0;
  }

  /** Where `cos^2 + sin^2 == 1` at a vertex's angle, that vertex is at distance `radius` from the centre. */
  lemma CircleVertexOnCircle(position: Vec, radius: real, segments: int, cos: real -> real, sin: real -> real, i: nat)
    requires i < SegmentCount(segments)
    requires var a := Angle(i, segments); cos(a) * cos(a) + sin(a) * sin(a) == 1.0
    ensures DistSq(CircleVertices(position, radius, segments, cos, sin)[i], position) == radius * radius
  {
    var a := Angle(i, segments);
    var c, s := cos(a), sin(a);
    assert Sub(CircleVertices(position, radius, segments, cos, sin)[i], position) == Vec(c * radius, s * radius);
    assert (c * radius) * (c * radius) + (s * radius) * (s * radius) == (c * c + s * s) * (radius * radius);
  }

  /** `segments || 30`: an absent or zero segment count becomes 30. */
  function SegmentsOrDefault(segments: Option<int>): int {
    if segments.None? || segments.value == 0 then 30 else segments.value
  }

  /** `calculateVertices`: the vertices of a square or a circle, and none for any other shape. */
  function Vertices(shape: Shape, position: Vec, size: real, segments: Option<int>,
                    cos: real -> real, sin: real -> real): (r: seq<Vec>)
    ensures shape == "Square" ==> |r| == 4
    ensures shape == "Circle" ==> |r| == SegmentCount(SegmentsOrDefault(segments))
  {
    match shape
    case "Square" => SquareVertices(position, size)
    case "Circle" => CircleVertices(position, size, SegmentsOrDefault(segments), cos, sin)
    case _ => []
  }

  /** A circle without a segment count gets 30 vertices. */
  lemma CircleDefaultSegments(position: Vec, size: real, segments: Option<int>, cos: real -> real, sin: real -> real)
    requires segments.None? || segments.value == 0
    ensures |Vertices("Circle", position, size, segments, cos, sin)| == 30
  {
  }

  /** Only "Square" and "Circle" have vertices; every other name, "Triangle" and "Random" among them, gets none. */
  lemma OnlySquaresAndCirclesHaveVertices(position: Vec, size: real, segments: Option<int>,
                                          cos: real -> real, sin: real -> real)
    ensures forall shape :: shape != "Square" && shape != "Circle" ==>
      Vertices(shape, position, size, segments, cos, sin) == []
  {
  }
}
