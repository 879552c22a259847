/**
 * The boundary the balls bounce inside: its defaults, the map from shape
 * names to drawing routines, and the check that every listed shape has a
 * routine, which makes construction fail.
 */
module Boundaries {
  import opened Vectors
  import opened Wrappers
  import opened App

  /** The drawing routines a shape name can be mapped to. */
  datatype DrawRoutine = DrawSquare | DrawCircle

  const ShapesUndefined: string := "Shapes is not defined in Boundary.ts. Cannot ensure all shapes are in shape map."

  function NotInShapeMap(shape: Shape): string {
    shape + " is not a defined shape in the shape map!"
  }

  /** The index of the first listed shape, from `i` on, that has no routine. */
  function FirstMissingFrom(shapes: seq<Shape>, keys: set<Shape>, i: nat): (r: Option<nat>)
    requires i <= |shapes|
    ensures r.None? <==> forall k :: i <= k < |shapes| ==> shapes[k] in keys
    ensures r.Some? ==> i <= r.value < |shapes| && shapes[r.value] !in keys
    ensures r.Some? ==> forall k :: i <= k < r.value ==> shapes[k] in keys
    decreases |shapes| - i
  {
    if i == |shapes| then None
    else if shapes[i] !in keys then Some(i)
    else FirstMissingFrom(shapes, keys, i + 1)
  }

  /**
   * `ensureAllShapesInShapeMap` as a value: an undefined list fails, and
   * otherwise the first listed shape without a routine fails, by name.
   */
  function ShapeCheck(shapes: Option<seq<Shape>>, keys: set<Shape>): Outcome<string> {
    match shapes
    case None => Fail(ShapesUndefined)
    case Some(list) =>
      match FirstMissingFrom(list, keys, 0)
      case None => Pass
      case Some(k) => Fail(NotInShapeMap(list[k]))
  }

  /** The keys `populateShapeMap` registers. */
  const MappedShapes: set<Shape> := {"Square", "Circle"}

  /** A defined list passes exactly when every listed shape is "Square" or "Circle". */
  lemma ShapeCheckPasses(list: seq<Shape>)
    ensures ShapeCheck(Some(list), MappedShapes) == Pass
        <==> forall k :: 0 <= k < |list| ==> list[k] == "Square" || list[k] == "Circle"
  {
  }

  /** A failure names the first listed shape without a routine. */
  lemma ShapeCheckNamesFirstMissing(list: seq<Shape>, keys: set<Shape>, k: nat)
    requires k < |list| && list[k] !in keys
    requires forall j :: 0 <= j < k ==> list[j] in keys
    ensures ShapeCheck(Some(list), keys) == Fail(NotInShapeMap(list[k]))
  {
    var r := FirstMissingFrom(list, keys, 0);
    assert r.Some?;
  }

  /** The application's own shape list fails the check at "Triangle", its third entry. */
  lemma AppShapesFailAtTriangle()
    ensures ShapeCheck(Some(Shapes), MappedShapes) == Fail(NotInShapeMap("Triangle"))
    ensures ShapeCheck(Some(BoundaryShapes), MappedShapes) == Fail(NotInShapeMap("Triangle"))
  {
    assert Shapes[0] in MappedShapes && Shapes[1] in MappedShapes && Shapes[2] !in MappedShapes;
    ShapeCheckNamesFirstMissing(Shapes, MappedShapes, 2);
    ShapeCheckNamesFirstMissing(BoundaryShapes, MappedShapes, 2);
  }

  /** `size || 100`: an absent or zero size becomes 100; any other size is kept. */
  function SizeOrDefault(size: Option<real>): (s: real)
    ensures s != 0.0
    ensures size.Some? && size.value != 0.0 ==> s == size.value
    ensures size.None? || size.value == 0.0 ==> s == 100.0
  {
    if size.None? || size.value == 0.0 then 100.0 else size.value
  }

  class Boundary {
    const shape: Shape
    const shapes: Option<seq<Shape>>
    var size: real
    var position: Vec
    var velocity: Vec
    var acceleration: Vec
    var shapeMap: map<Shape, DrawRoutine>

    /**
     * The fields and the shape map of a new boundary. The check that makes
     * construction fail is `EnsureAllShapesInShapeMap`, run by `Create`.
     */
    constructor (shape: Shape, shapes: Option<seq<Shape>>, size: Option<real>, position: Option<Vec>)
      ensures this.shape == shape && this.shapes == shapes
      ensures this.position == (if position.Some? then position.value else Zero)
      ensures this.size == SizeOrDefault(size)
      ensures velocity == Zero && acceleration == Zero
      ensures shapeMap == map["Square" := DrawSquare, "Circle" := DrawCircle]
      ensures shapeMap.Keys == MappedShapes
    {
      this.shape := shape;
      this.shapes := shapes;
      this.position := if position.Some? then position.value else Zero;
      this.size := SizeOrDefault(size);
      velocity := Zero;
      acceleration := Zero;
      shapeMap := map[];
      new;
      PopulateShapeMap();
    }

    /** `populateShapeMap`: registers the square and circle routines. */
    method PopulateShapeMap()
      modifies this`shapeMap
      ensures shapeMap == old(shapeMap)["Square" := DrawSquare]["Circle" := DrawCircle]
    {
      shapeMap := shapeMap["Square" := DrawSquare];
      shapeMap := shapeMap["Circle" := DrawCircle];
    }

    /** `ensureAllShapesInShapeMap`: the first failure, in list order, is reported as the thrown error. */
    method EnsureAllShapesInShapeMap() returns (r: Outcome<string>)
      ensures r == ShapeCheck(shapes, shapeMap.Keys)
    {
      if shapes.None? {
        return Fail(ShapesUndefined);
      }
      var list := shapes.value;
      var i := 0;
      while i < |list|
        invariant i <= |list|
        invariant FirstMissingFrom(list, shapeMap.Keys, i) == FirstMissingFrom(list, shapeMap.Keys, 0)
      {
        if list[i] !in shapeMap {
          return Fail(NotInShapeMap(list[i]));
        }
        i := i + 1;
      }
      return Pass;
    }
  }

  /** `new Boundary(...)`: the boundary, or the error its constructor throws. */
  method Create(shape: Shape, shapes: Option<seq<Shape>>, size: Option<real>, position: Option<Vec>)
    returns (r: Result<Boundary, string>)
    ensures ShapeCheck(shapes, MappedShapes).Fail? ==> r == Failure(ShapeCheck(shapes, MappedShapes).error)
    ensures ShapeCheck(shapes, MappedShapes).Pass? ==> r.Success? && fresh(r.value)
    ensures r.Success? ==>
      && r.value.shape == shape && r.value.shapes == shapes
      && r.value.position == (if position.Some? then position.value else Zero)
      && r.value.size == SizeOrDefault(size)
      && r.value.velocity == Zero && r.value.acceleration == Zero
      && r.value.shapeMap.Keys == MappedShapes
  {
    var b := new Boundary(shape, shapes, size, position);
    var check := b.EnsureAllShapesInShapeMap();
    if check.Fail? {
      return Failure(check.error);
    }
    return Success(b);
  }
}
