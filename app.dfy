/**
 * The shared vocabulary of the application: shape names, forces, and the
 * name-keyed force list that `addForce` maintains.
 */
module App {
  import opened Vectors

  /** Shapes are plain strings: the union type is taken from an unconstrained string array. */
  type Shape = string

  const Shapes: seq<Shape> := ["Square", "Circle", "Triangle"]
  const BoundaryShapes: seq<Shape> := ["Square", "Circle", "Triangle", "Random"]

  /** A force is either a fixed vector or a function of the size of the ball it acts on. */
  datatype ForceValue = Fixed(v: Vec) | OfSize(f: real -> Vec)

  datatype Force = Force(name: string, value: ForceValue, enabled: bool)

  /** The vector a force contributes to a ball of the given size. */
  function ValueAt(force: Force, size: real): Vec {
    match force.value
    case Fixed(v) => v
    case OfSize(f) => f(size)
  }

  /** Array `some`: whether an entry carries the name. */
  predicate HasName(forces: seq<Force>, name: string) {
    exists i :: 0 <= i < |forces| && forces[i].name == name
  }

  /** Array `find`: the index of the first entry carrying the name. */
  function FirstNamed(forces: seq<Force>, name: string): (i: nat)
    requires HasName(forces, name)
    ensures i < |forces| && forces[i].name == name
    ensures forall j :: 0 <= j < i ==> forces[j].name != name
  {
    if forces[0].name == name then 0
    else
      assert HasName(forces[1..], name) by {
        var k :| 0 <= k < |forces| && forces[k].name == name;
        assert forces[1..][k - 1].name == name;
      }
      1 + FirstNamed(forces[1..], name)
  }

  ghost predicate UniqueNames(forces: seq<Force>) {
    forall i, j :: 0 <= i < j < |forces| ==> forces[i].name != forces[j].name
  }

  /**
   * The force list after `addForce(force)`: a new name is appended; for a
   * name already present, only the first such entry's `enabled` flag is set
   * to the new force's flag.
   */
  function WithForceAdded(forces: seq<Force>, force: Force): seq<Force> {
    if !HasName(forces, force.name) then forces + [force]
    else
      var i := FirstNamed(forces, force.name);
      forces[i := forces[i].(enabled := force.enabled)]
  }

  /** The force list `forcesRef.current`, which `addForce` mutates in place. */
  class ForceRegistry {
    var forces: seq<Force>

    constructor ()
      ensures forces == []
    {
      forces := [];
    }

    method AddForce(force: Force)
      modifies this
      ensures forces == WithForceAdded(old(forces), force)
    {
      var isDuplicate := HasName(forces, force.name);
      if !isDuplicate {
        forces := forces + [force];
      } else {
        var i := FirstNamed(forces, force.name);
        forces := forces[i := forces[i].(enabled := force.enabled)];
      }
    }
  }

  /** A name not yet present is appended at the end and the list grows by one. */
  lemma AddNewForceAppends(forces: seq<Force>, force: Force)
    requires !HasName(forces, force.name)
    ensures |WithForceAdded(forces, force)| == |forces| + 1
    ensures WithForceAdded(forces, force)[..|forces|] == forces
    ensures WithForceAdded(forces, force)[|forces|] == force
  {
  }

  /**
   * A name already present keeps the length; the first entry with that name
   * keeps its name and value and takes the new `enabled` flag; every other
   * entry is untouched.
   */
  lemma AddExistingForceTogglesOnly(forces: seq<Force>, force: Force)
    requires HasName(forces, force.name)
    ensures var r := WithForceAdded(forces, force);
      var i := FirstNamed(forces, force.name);
      && |r| == |forces|
      && r[i].name == forces[i].name && r[i].value == forces[i].value && r[i].enabled == force.enabled
      && forall j :: 0 <= j < |forces| && j != i ==> r[j] == forces[j]
  {
  }

  /** In both branches, entries under other names are unchanged. */
  lemma AddForceKeepsOtherNames(forces: seq<Force>, force: Force, j: nat)
    requires j < |forces| && forces[j].name != force.name
    ensures j < |WithForceAdded(forces, force)|
    ensures WithForceAdded(forces, force)[j] == forces[j]
  {
  }

  /** After `addForce`, the name is present and its first entry has the new `enabled` flag. */
  lemma AddForceSetsEnabled(forces: seq<Force>, force: Force)
    ensures var r := WithForceAdded(forces, force);
      HasName(r, force.name) && r[FirstNamed(r, force.name)].enabled == force.enabled
  {
    var r := WithForceAdded(forces, force);
    if !HasName(forces, force.name) {
      assert r[|forces|].name == force.name;
      assert FirstNamed(r, force.name) == |forces|;
    } else {
      var i := FirstNamed(forces, force.name);
      assert r[i].name == force.name;
      assert FirstNamed(r, force.name) == i;
    }
  }

  /** Names that were unique stay unique. */
  lemma {:induction false} AddForcePreservesUniqueNames(forces: seq<Force>, force: Force)
    requires UniqueNames(forces)
    ensures UniqueNames(WithForceAdded(forces, force))
  {
    var r := WithForceAdded(forces, force);
    if !HasName(forces, force.name) {
      forall i, j | 0 <= i < j < |r| ensures r[i].name != r[j].name {
        if j == |forces| {
          assert r[i] == forces[i];
        }
      }
    } else {
      forall i, j | 0 <= i < j < |r| ensures r[i].name != r[j].name {
        assert r[i].name == forces[i].name && r[j].name == forces[j].name;
      }
    }
  }

  /** Adding the same force twice leaves the list as adding it once. */
  lemma AddForceIdempotent(forces: seq<Force>, force: Force)
    ensures WithForceAdded(WithForceAdded(forces, force), force) == WithForceAdded(forces, force)
  {
    var r := WithForceAdded(forces, force);
    AddForceSetsEnabled(forces, force);
    var i := FirstNamed(r, force.name);
    assert r[i := r[i].(enabled := force.enabled)] == r;
  }
}
