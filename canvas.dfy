/**
 * The sketch that drives the simulation: the forces it uses, the balls
 * `setup` spawns, one frame of the `draw` loop with its off-screen culling,
 * and the ball a mouse click spawns.
 *
 * A frame is defined on values by `FrameFrom`, over slots that pair a tag
 * (the ball's identity) with the ball's state; `Sketch.Draw` is proved to
 * perform it on the ball objects. Because `splice(index, 1)` runs inside
 * `forEach`, a removed ball's successor moves into the visited index and
 * is skipped, and a ball that fails both tests takes its successor with it.
 */
module Canvas {
  import opened Vectors
  import opened Wrappers
  import opened App
  import opened BallKinematics
  import opened Balls

  /** The canvas is created 600 by 400. */
  const Width: real := 600.0
  const Height: real := 400.0

  // ---------------------------------------------------------------------
  // Forces

  /** The sketch's own forces: 0.1 per unit of size along each axis direction, only gravity on. */
  const DefaultForces: seq<Force> := [
    Force("Gravity", OfSize(size => Vec(0.0, 0.1 * size)), true),
    Force("Anti-Gravity", OfSize(size => Vec(0.0, -0.1 * size)), false),
    Force("Right Force", OfSize(size => Vec(0.1 * size, 0.0)), false),
    Force("Left Force", OfSize(size => Vec(-0.1 * size, 0.0)), false)
  ]

  /** Each default force, evaluated at a size, and which of them start enabled. */
  lemma DefaultForceValues(size: real)
    ensures |DefaultForces| == 4
    ensures ValueAt(DefaultForces[0], size) == Vec(0.0, 0.1 * size) && DefaultForces[0].enabled
    ensures ValueAt(DefaultForces[1], size) == Vec(0.0, -0.1 * size) && !DefaultForces[1].enabled
    ensures ValueAt(DefaultForces[2], size) == Vec(0.1 * size, 0.0) && !DefaultForces[2].enabled
    ensures ValueAt(DefaultForces[3], size) == Vec(-0.1 * size, 0.0) && !DefaultForces[3].enabled
  {
  }

  /** Under the default forces a ball of any size accelerates by gravity alone. */
  lemma DefaultForcesAreGravity(size: real)
    ensures ForceSum(DefaultForces, size) == Vec(0.0, 0.1 * size)
  {
    var d := DefaultForces;
    assert d[..1][..0] == [] && d[..2][..1] == d[..1] && d[..3][..2] == d[..2] && d[..4][..3] == d[..3];
    assert ForceSum(d[..1], size) == Vec(0.0, 0.1 * size);
    assert ForceSum(d[..2], size) == ForceSum(d[..1], size);
    assert ForceSum(d[..3], size) == ForceSum(d[..2], size);
    assert ForceSum(d[..4], size) == ForceSum(d[..3], size);
    assert d[..4] == d;
  }

  lemma DefaultNamesUnique()
    ensures UniqueNames(DefaultForces)
  {
    var d := DefaultForces;
    assert d[0].name == "Gravity" && d[1].name == "Anti-Gravity";
    assert d[2].name == "Right Force" && d[3].name == "Left Force";
  }

  /** The registry after `forEach(addForce)` over a list. */
  function AddAll(forces: seq<Force>, toAdd: seq<Force>): seq<Force>
    decreases |toAdd|
  {
    if toAdd == [] then forces
    else AddAll(WithForceAdded(forces, toAdd[0]), toAdd[1..])
  }

  /** Forces with new, distinct names are appended in order. */
  lemma {:induction false} AddAllFresh(forces: seq<Force>, toAdd: seq<Force>)
    requires UniqueNames(toAdd)
    requires forall i :: 0 <= i < |toAdd| ==> !HasName(forces, toAdd[i].name)
    ensures AddAll(forces, toAdd) == forces + toAdd
    decreases |toAdd|
  {
    if toAdd != [] {
      var f, rest := toAdd[0], toAdd[1..];
      AddNewForceAppends(forces, f);
      var next := WithForceAdded(forces, f);
      assert next == forces + [f];
      forall i | 0 <= i < |rest| ensures !HasName(next, rest[i].name) {
        assert rest[i] == toAdd[i + 1];
        NameStillFresh(forces, f, rest[i]);
      }
      assert UniqueNames(rest) by {
        forall i, j | 0 <= i < j < |rest| ensures rest[i].name != rest[j].name {
          assert rest[i] == toAdd[i + 1] && rest[j] == toAdd[j + 1];
        }
      }
      AddAllFresh(next, rest);
      assert next + rest == forces + toAdd;
    }
  }

  lemma NameStillFresh(forces: seq<Force>, f: Force, g: Force)
    requires !HasName(forces, g.name) && f.name != g.name
    ensures !HasName(forces + [f], g.name)
  {
    var next := forces + [f];
    forall j | 0 <= j < |next| ensures next[j].name != g.name {
      if j < |forces| {
        assert next[j] == forces[j];
      }
    }
  }

  /** Registering the defaults on an empty registry yields exactly the defaults, in order. */
  lemma DefaultsRegisteredInOrder()
    ensures AddAll([], DefaultForces) == DefaultForces
  {
    DefaultNamesUnique();
    AddAllFresh([], DefaultForces);
  }

  /** The list the sketch applies: the given forces when there are any, and otherwise its own defaults. */
  function SelectedForces(propsForces: seq<Force>): (r: seq<Force>)
    ensures |propsForces| > 0 ==> r == propsForces
    ensures propsForces == [] ==> r == DefaultForces
  {
    if |propsForces| > 0 then propsForces else DefaultForces
  }

  /**
   * The application passes the registry's own list as the given forces: then
   * after the selection the sketch and the registry hold the same list.
   */
  lemma SelectionAgreesWithRegistry(registered: seq<Force>)
    ensures var after := if |registered| > 0 then registered else AddAll(registered, DefaultForces);
      after == SelectedForces(registered)
  {
    if registered == [] {
      DefaultsRegisteredInOrder();
    }
  }

  /** `forces.forEach(props.addForce)`. */
  method RegisterAll(registry: ForceRegistry, toAdd: seq<Force>)
    modifies registry
    ensures registry.forces == AddAll(old(registry.forces), toAdd)
  {
    var i := 0;
    while i < |toAdd|
      invariant i <= |toAdd|
      invariant AddAll(registry.forces, toAdd[i..]) == AddAll(old(registry.forces), toAdd)
    {
      assert toAdd[i..][1..] == toAdd[i + 1..];
      registry.AddForce(toAdd[i]);
      i := i + 1;
    }
  }

  // ---------------------------------------------------------------------
  // Culling

  /** The horizontal cull test. Both tests add the size, on either side. */
  predicate OffScreenX(position: Vec, size: real) {
    position.x + size > Width || position.x + size < -Width
  }

  /** The vertical cull test. */
  predicate OffScreenY(position: Vec, size: real) {
    position.y + size > Height || position.y + size < -Height
  }

  /** `splice(k, 1)`: removes the element at `k`, and nothing when `k` is past the end. */
  function Splice<T>(s: seq<T>, k: nat): seq<T> {
    if k < |s| then s[..k] + s[k + 1..] else s
  }

  function Min(a: int, b: int): int {
    if a < b then a else b
  }

  // ---------------------------------------------------------------------
  // One frame on values

  /** A ball in the list: its identity, its state and its size. */
  datatype Slot<T> = Slot(tag: T, kin: Kinematic, size: Size)

  /** What a frame depends on besides the balls. */
  datatype World = World(forces: seq<Force>, edges: seq<Vec>, sqrt: real -> real)

  function Tags<T>(s: seq<Slot<T>>): (r: seq<T>)
    ensures |r| == |s|
  {
    seq(|s|, i requires 0 <= i < |s| => s[i].tag)
  }

  ghost predicate Distinct<T>(s: seq<T>) {
    forall i, j :: 0 <= i < j < |s| ==> s[i] != s[j]
  }

  /** How many of the two cull tests a ball fails, and so how many splices its visit makes. */
  function Cuts<T>(p: Slot<T>): nat {
    (if OffScreenX(p.kin.position, p.size) then 1 else 0) + (if OffScreenY(p.kin.position, p.size) then 1 else 0)
  }

  /**
   * The two cull tests for the ball at `k`, each splicing at `k`: they
   * remove as many consecutive balls from `k` on as tests fail, the ball
   * itself and then the one after it.
   */
  function CullAt<T>(s: seq<Slot<T>>, k: nat): (r: seq<Slot<T>>)
    requires k < |s|
    ensures r == s[..k] + s[Min(k + Cuts(s[k]), |s|)..]
  {
    var p := s[k];
    var once := if OffScreenX(p.kin.position, p.size) then Splice(s, k) else s;
    var twice := if OffScreenY(p.kin.position, p.size) then Splice(once, k) else once;
    assert Cuts(p) == 2 && k + 1 < |s| ==> twice == s[..k] + s[k + 2..] by {
      if Cuts(p) == 2 && k + 1 < |s| {
        assert once[..k] == s[..k] && once[k + 1..] == s[k + 2..];
      }
    }
    assert Cuts(p) == 0 ==> twice == s[..k] + s[k..];
    twice
  }

  /** `CullAt` as its two tests, one after the other. */
  lemma CullSteps<T>(s: seq<Slot<T>>, k: nat)
    requires k < |s|
    ensures var p := s[k];
      var once := if OffScreenX(p.kin.position, p.size) then Splice(s, k) else s;
      CullAt(s, k) == if OffScreenY(p.kin.position, p.size) then Splice(once, k) else once
  {
  }

  /** The ball's state after `applyForces` and `update`. */
  function Moved<T>(me: Slot<T>, forces: seq<Force>, edges: seq<Vec>): Kinematic {
    var k := me.kin;
    UpdateStep(Kinematic(k.position, k.velocity, Add(k.acceleration, ForceSum(forces, me.size))), edges, me.size)
  }

  function BodyOf(k: Kinematic): Body {
    Body(k.position, k.velocity)
  }

  /** The list as `checkSiblingCollision` of the ball at `k` sees it. */
  function SiblingEntries<T>(s: seq<Slot<T>>, k: nat): (r: seq<Entry>)
    ensures |r| == |s|
  {
    seq(|s|, j requires 0 <= j < |s| => Entry(BodyOf(s[j].kin), s[j].size, j == k))
  }

  /**
   * `checkSiblingCollision` for the ball at `k`: the pass over the whole
   * list gives that ball and every other ball its new position and
   * velocity; accelerations are untouched.
   */
  function Collided<T>(s: seq<Slot<T>>, k: nat, sqrt: real -> real): (r: seq<Slot<T>>)
    requires k < |s|
    ensures |r| == |s|
  {
    var me := s[k];
    var (m, outs) := SiblingPass(BodyOf(me.kin), me.size, SiblingEntries(s, k), sqrt);
    seq(|s|, j requires 0 <= j < |s| =>
      if j == k then Slot(me.tag, Kinematic(m.position, m.velocity, me.kin.acceleration), me.size)
      else Slot(s[j].tag, Kinematic(outs[j].position, outs[j].velocity, s[j].kin.acceleration), s[j].size))
  }

  /**
   * The visited ball's forces are applied, it is updated, and then it
   * resolves its collisions with every other ball currently in the list.
   */
  function Advanced<T>(s: seq<Slot<T>>, k: nat, w: World): (r: seq<Slot<T>>)
    requires k < |s|
    ensures |r| == |s|
  {
    Collided(s[k := s[k].(kin := Moved(s[k], w.forces, w.edges))], k, w.sqrt)
  }

  /** One call of the `forEach` callback, for the ball at `k`. */
  function Visit<T>(s: seq<Slot<T>>, k: nat, w: World): (r: seq<Slot<T>>)
    requires k < |s|
    ensures |r| <= |s|
  {
    CullAt(Advanced(s, k, w), k)
  }

  /**
   * The rest of a frame from index `k`: `forEach` calls back for every index
   * still inside the list, which shrinks under it and never grows.
   */
  function FrameFrom<T>(s: seq<Slot<T>>, k: nat, w: World): seq<Slot<T>>
    decreases |s| - k
  {
    if k >= |s| then s else FrameFrom(Visit(s, k, w), k + 1, w)
  }

  /** The balls visited by the rest of a frame from index `k`, in order. */
  function VisitedFrom<T>(s: seq<Slot<T>>, k: nat, w: World): seq<T>
    decreases |s| - k
  {
    if k >= |s| then [] else [s[k].tag] + VisitedFrom(Visit(s, k, w), k + 1, w)
  }

  // ---------------------------------------------------------------------
  // Properties of a frame

  lemma TagsSlices<T>(s: seq<Slot<T>>, a: nat, b: nat)
    requires a <= b <= |s|
    ensures Tags(s[..a] + s[b..]) == Tags(s)[..a] + Tags(s)[b..]
  {
  }

  /** The visit moves no ball in the list; it removes `Cuts` balls from `k` on. */
  lemma VisitTags<T>(s: seq<Slot<T>>, k: nat, w: World)
    requires k < |s|
    ensures var c := Cuts(Advanced(s, k, w)[k]);
      Tags(Visit(s, k, w)) == Tags(s)[..k] + Tags(s)[Min(k + c, |s|)..]
  {
    var a := Advanced(s, k, w);
    assert Tags(a) == Tags(s);
    TagsSlices(a, k, Min(k + Cuts(a[k]), |s|));
  }

  /** A ball that passes both tests stays where it is, and the next ball is visited next. */
  lemma OnScreenBallStays<T>(s: seq<Slot<T>>, k: nat, w: World)
    requires k < |s|
    requires Cuts(Advanced(s, k, w)[k]) == 0
    ensures Tags(Visit(s, k, w)) == Tags(s)
    ensures k + 1 < |s| ==>
      |VisitedFrom(s, k, w)| >= 2 && VisitedFrom(s, k, w)[0] == s[k].tag && VisitedFrom(s, k, w)[1] == s[k + 1].tag
  {
    VisitTags(s, k, w);
    assert Tags(s)[..k] + Tags(s)[k..] == Tags(s);
    if k + 1 < |s| {
      var v := Visit(s, k, w);
      assert Tags(v)[k + 1] == v[k + 1].tag;
    }
  }

  lemma InLaterSlice<T>(s: seq<T>, a: nat, b: nat, x: T)
    requires b <= a <= |s| && x in s[a..]
    ensures x in s[b..]
  {
    var i :| 0 <= i < |s[a..]| && s[a..][i] == x;
    assert s[b..][i + a - b] == x;
  }

  /** A visit keeps the balls before its index and keeps from there on only balls that were there. */
  lemma VisitStep<T>(t: seq<Slot<T>>, j: nat, w: World)
    requires j < |t|
    ensures j <= |Visit(t, j, w)|
    ensures Tags(Visit(t, j, w))[..j] == Tags(t)[..j]
    ensures forall x :: x in Tags(Visit(t, j, w))[j..] ==> x in Tags(t)[j..]
  {
    var c := Min(j + Cuts(Advanced(t, j, w)[j]), |t|);
    VisitTags(t, j, w);
    var v := Visit(t, j, w);
    assert Tags(v)[j..] == Tags(t)[c..];
    forall x | x in Tags(v)[j..] ensures x in Tags(t)[j..] {
      InLaterSlice(Tags(t), c, j, x);
    }
  }

  lemma SplitHead<T>(s: seq<T>, j: nat)
    requires j < |s|
    ensures s[j..] == [s[j]] + s[j + 1..]
  {
  }

  /** One step of the induction below, on the tag lists alone. */
  lemma PrefixChain<T>(a: seq<T>, b: seq<T>, c: seq<T>, j: nat, k: nat)
    requires k == j + 1
    requires j < |a| && j < |b| && j <= |c|
    requires a[..k] == b[..k] && b[..j] == c[..j]
    requires forall x :: x in a[k..] ==> x in b[k..]
    requires forall x :: x in b[j..] ==> x in c[j..]
    ensures a[..j] == c[..j]
    ensures forall x :: x in a[j..] ==> x in c[j..]
  {
    assert a[..j] == a[..k][..j] && b[..j] == b[..k][..j];
    assert a[j] == a[..k][j] == b[..k][j] == b[j];
    SplitHead(a, j);
    SplitHead(b, j);
  }

  /**
   * The rest of a frame from `j` keeps the balls before `j`, and keeps at
   * `j` and beyond only balls that were there.
   */
  lemma {:induction false} FrameFromTags<T>(t: seq<Slot<T>>, j: nat, w: World)
    requires j <= |t|
    ensures j <= |FrameFrom(t, j, w)|
    ensures Tags(FrameFrom(t, j, w))[..j] == Tags(t)[..j]
    ensures forall x :: x in Tags(FrameFrom(t, j, w))[j..] ==> x in Tags(t)[j..]
    decreases |t| - j
  {
    if j < |t| {
      var v := Visit(t, j, w);
      VisitStep(t, j, w);
      var r := FrameFrom(v, j + 1, w);
      assert FrameFrom(t, j, w) == r;
      if j + 1 <= |v| {
        FrameFromTags(v, j + 1, w);
        PrefixChain(Tags(r), Tags(v), Tags(t), j, j + 1);
      } else {
        assert r == v;
        assert Tags(r)[j..] == [];
      }
    } else {
      assert FrameFrom(t, j, w) == t;
    }
  }

  /** The rest of a frame from `j` visits only balls that were at `j` or beyond. */
  lemma {:induction false} VisitedFromTags<T>(t: seq<Slot<T>>, j: nat, w: World)
    requires j <= |t|
    ensures forall x :: x in VisitedFrom(t, j, w) ==> x in Tags(t)[j..]
    decreases |t| - j
  {
    if j < |t| {
      var v := Visit(t, j, w);
      VisitStep(t, j, w);
      var rest := VisitedFrom(v, j + 1, w);
      assert VisitedFrom(t, j, w) == [t[j].tag] + rest;
      var tt := Tags(t)[j..];
      assert t[j].tag == tt[0];
      if j + 1 <= |v| {
        VisitedFromTags(v, j + 1, w);
        forall x | x in rest ensures x in tt {
          InLaterSlice(Tags(v), j + 1, j, x);
        }
      } else {
        assert rest == [];
      }
      ConsWithin(t[j].tag, rest, tt);
    }
  }

  lemma ConsWithin<T>(h: T, rest: seq<T>, c: seq<T>)
    requires h in c
    requires forall x :: x in rest ==> x in c
    ensures forall x :: x in [h] + rest ==> x in c
  {
  }

  lemma FrameStep<T>(s: seq<Slot<T>>, k: nat, w: World)
    requires k < |s|
    ensures FrameFrom(s, k, w) == FrameFrom(Visit(s, k, w), k + 1, w)
  {
  }

  lemma LastFrameStep<T>(s: seq<Slot<T>>, k: nat, w: World)
    requires k >= |s|
    ensures FrameFrom(s, k, w) == s
  {
  }

  /** Every ball left at the end of a frame was in the list before it. */
  lemma FrameKeepsOnlyListed<T>(t: seq<Slot<T>>, j: nat, w: World, x: T)
    requires j <= |t|
    requires x in Tags(FrameFrom(t, j, w))
    ensures x in Tags(t)
  {
    FrameFromTags(t, j, w);
    var r := Tags(FrameFrom(t, j, w));
    assert r == r[..j] + r[j..];
    assert Tags(t) == Tags(t)[..j] + Tags(t)[j..];
  }

  /** A ball that fails a cull test is gone at the end of the frame. */
  lemma CulledBallRemoved<T>(s: seq<Slot<T>>, k: nat, w: World)
    requires k < |s| && Distinct(Tags(s))
    requires Cuts(Advanced(s, k, w)[k]) >= 1
    ensures s[k].tag !in Tags(FrameFrom(s, k, w))
  {
    var v := Visit(s, k, w);
    VisitTags(s, k, w);
    RemovedNotKept(Tags(s), k, Min(k + Cuts(Advanced(s, k, w)[k]), |s|), k);
    if k + 1 <= |v| {
      FrameOnlyListed(v, k + 1, w);
    }
  }

  /** Removing the slice `[k, c)` of a list of distinct elements leaves none of the removed ones. */
  lemma RemovedNotKept<T>(ts: seq<T>, k: nat, c: nat, i: nat)
    requires Distinct(ts) && k <= i < c <= |ts|
    ensures ts[i] !in ts[..k] + ts[c..]
  {
    var r := ts[..k] + ts[c..];
    forall j | 0 <= j < |r| ensures r[j] != ts[i] {
      if j < k {
        assert r[j] == ts[j];
      } else {
        assert r[j] == ts[c + j - k];
      }
    }
  }

  /** Every ball left at the end of a frame was in the list before it. */
  lemma FrameOnlyListed<T>(t: seq<Slot<T>>, j: nat, w: World)
    requires j <= |t|
    ensures forall y :: y in Tags(FrameFrom(t, j, w)) ==> y in Tags(t)
  {
    forall y | y in Tags(FrameFrom(t, j, w)) ensures y in Tags(t) {
      FrameKeepsOnlyListed(t, j, w, y);
    }
  }

  lemma NotInLaterSlice<T>(s: seq<T>, a: nat, b: nat)
    requires Distinct(s) && a < b <= |s|
    ensures s[a] !in s[b..]
  {
    forall i | 0 <= i < |s[b..]| ensures s[b..][i] != s[a] {
      assert s[b..][i] == s[b + i];
    }
  }

  /**
   * A ball that fails exactly one test is spliced out, so the ball after it
   * moves into its index and is not visited this frame; it is still in the
   * list, at that index, when the frame ends.
   */
  lemma CulledOnceSkipsNext<T>(s: seq<Slot<T>>, k: nat, w: World)
    requires k + 1 < |s| && Distinct(Tags(s))
    requires Cuts(Advanced(s, k, w)[k]) == 1
    ensures s[k + 1].tag !in VisitedFrom(s, k, w)
    ensures k < |FrameFrom(s, k, w)| && FrameFrom(s, k, w)[k].tag == s[k + 1].tag
  {
    var v := Visit(s, k, w);
    VisitTags(s, k, w);
    assert Tags(v) == Tags(s)[..k] + Tags(s)[k + 1..];
    assert Tags(v)[k] == s[k + 1].tag;
    assert Tags(v)[k + 1..] == Tags(s)[k + 2..];
    FrameFromTags(v, k + 1, w);
    VisitedFromTags(v, k + 1, w);
    var r := FrameFrom(v, k + 1, w);
    assert Tags(r)[..k + 1][k] == Tags(v)[..k + 1][k];
    NotInLaterSlice(Tags(s), k + 1, k + 2);
    assert Tags(s)[k] != Tags(s)[k + 1];
  }

  /**
   * A ball that fails both tests is spliced out twice at its index: the
   * second splice removes the ball after it, which is neither visited this
   * frame nor left in the list.
   */
  lemma CulledTwiceDropsNext<T>(s: seq<Slot<T>>, k: nat, w: World)
    requires k + 1 < |s| && Distinct(Tags(s))
    requires Cuts(Advanced(s, k, w)[k]) == 2
    ensures s[k + 1].tag !in VisitedFrom(s, k, w)
    ensures s[k + 1].tag !in Tags(FrameFrom(s, k, w))
  {
    var v := Visit(s, k, w);
    VisitTags(s, k, w);
    RemovedNotKept(Tags(s), k, k + 2, k + 1);
    assert Tags(s)[k] != Tags(s)[k + 1];
    if k + 1 <= |v| {
      VisitedFromTags(v, k + 1, w);
      FrameOnlyListed(v, k + 1, w);
      forall y | y in Tags(v)[k + 1..] ensures y in Tags(v) {
        InLaterSlice(Tags(v), k + 1, 0, y);
        assert Tags(v)[0..] == Tags(v);
      }
    }
  }

  /**
   * With no other ball within touching distance of the visited ball once it
   * has moved, the visit leaves it in its updated state and every other
   * ball as it was, before the cull tests.
   */
  lemma AdvanceWithoutContact<T>(s: seq<Slot<T>>, k: nat, w: World)
    requires k < |s|
    requires var moved := Moved(s[k], w.forces, w.edges);
      forall j :: 0 <= j < |s| && j != k ==>
        w.sqrt(DistSq(moved.position, s[j].kin.position)) > s[j].size + s[k].size
    ensures Advanced(s, k, w)[k].kin == Moved(s[k], w.forces, w.edges)
    ensures forall j :: 0 <= j < |s| && j != k ==> Advanced(s, k, w)[j] == s[j]
  {
    var moved := Moved(s[k], w.forces, w.edges);
    var s' := s[k := s[k].(kin := moved)];
    var es := SiblingEntries(s', k);
    forall j | 0 <= j < |es| && !es[j].isSelf
      ensures w.sqrt(DistSq(BodyOf(moved).position, es[j].body.position)) > es[j].size + s[k].size
    {
      assert es[j].body == BodyOf(s[j].kin);
    }
    PassNoTouch(BodyOf(moved), s[k].size, es, w.sqrt);
    var outs := SiblingPass(BodyOf(moved), s[k].size, es, w.sqrt).1;
    forall j | 0 <= j < |s| && j != k ensures Advanced(s, k, w)[j] == s[j] {
      assert outs[j] == Bodies(es)[j] == es[j].body;
    }
  }

  // ---------------------------------------------------------------------
  // Spawning

  /** A click spawns a ball when it is a left click inside the canvas. */
  predicate ClickSpawns(leftButton: bool, mouseX: real, mouseY: real) {
    leftButton && 0.0 <= mouseX <= Width && 0.0 <= mouseY <= Height
  }

  /** The canvas origin is at its centre: a click is translated by half the canvas. */
  function ClickPosition(mouseX: real, mouseY: real): Vec {
    Vec(mouseX - Width / 2.0, mouseY - Height / 2.0)
  }

  /** A spawning click lands in the centred canvas, and its size-5 ball passes both cull tests there. */
  lemma ClickedBallOnScreen(leftButton: bool, mouseX: real, mouseY: real)
    requires ClickSpawns(leftButton, mouseX, mouseY)
    ensures var p := ClickPosition(mouseX, mouseY);
      && -Width / 2.0 <= p.x <= Width / 2.0 && -Height / 2.0 <= p.y <= Height / 2.0
      && !OffScreenX(p, 5.0) && !OffScreenY(p, 5.0)
  {
  }

  /** `setup`'s start position, from two random draws in [0, 1). */
  function SpawnPosition(draw: (real, real)): Vec {
    Vec(draw.0 * 100.0, draw.1 * 100.0)
  }

  predicate UnitDraw(draw: (real, real)) {
    0.0 <= draw.0 < 1.0 && 0.0 <= draw.1 < 1.0
  }

  /** Set-up positions lie in [0, 100) by [0, 100); a ball of size up to 300 starts on screen. */
  lemma SpawnedOnScreen(draw: (real, real), size: real)
    requires UnitDraw(draw)
    requires 0.0 < size <= 300.0
    ensures var p := SpawnPosition(draw); 0.0 <= p.x < 100.0 && 0.0 <= p.y < 100.0
    ensures !OffScreenX(SpawnPosition(draw), size) && !OffScreenY(SpawnPosition(draw), size)
  {
  }

  /** A set-up ball larger than the canvas height fails the vertical test wherever it starts. */
  lemma OversizedSpawnCulled(draw: (real, real), size: real)
    requires UnitDraw(draw)
    requires size > Height
    ensures OffScreenY(SpawnPosition(draw), size)
  {
  }

  /** `for (i = 0; i < ballCount; i++)` runs this many times. */
  function LoopCount(n: int): nat {
    if n > 0 then n else 0
  }

  // ---------------------------------------------------------------------
  // The sketch

  /** The slots of a list of balls, in the current heap. */
  function SlotsOf(balls: seq<Ball>): (r: seq<Slot<Ball>>)
    reads balls
    ensures |r| == |balls|
    ensures forall i :: 0 <= i < |balls| ==>
      r[i] == Slot(balls[i], balls[i].Kinematics(), balls[i].size)
  {
    seq(|balls|, i requires 0 <= i < |balls| reads balls =>
      Slot(balls[i], balls[i].Kinematics(), balls[i].size))
  }

  /** `forces.forEach(props.addForce)` over the defaults, when no forces are given. */
  method SelectForces(propsForces: seq<Force>, registry: ForceRegistry) returns (forces: seq<Force>)
    modifies registry
    ensures forces == SelectedForces(propsForces)
    ensures registry.forces
         == if |propsForces| > 0 then old(registry.forces) else AddAll(old(registry.forces), DefaultForces)
  {
    forces := DefaultForces;
    if |propsForces| > 0 {
      forces := propsForces;
    } else {
      RegisterAll(registry, forces);
    }
  }

  /** A sketch: the list of balls `setup`, `draw` and clicks work on, and the forces it applies. */
  class Sketch {
    var balls: seq<Ball>
    const forces: seq<Force>

    ghost predicate Valid()
      reads this
    {
      Distinct(balls)
    }

    /** The sketch function: selects the forces, registering the defaults when none are given. */
    constructor (propsForces: seq<Force>, registry: ForceRegistry)
      modifies registry
      ensures Valid() && balls == []
      ensures forces == SelectedForces(propsForces)
      ensures registry.forces
           == if |propsForces| > 0 then old(registry.forces) else AddAll(old(registry.forces), DefaultForces)
    {
      var selected := SelectForces(propsForces, registry);
      forces := selected;
      balls := [];
    }

    /** `setup`: appends `ballCount` balls of the given shape and size at positions from the random draws. */
    method Setup(ballCount: int, ballShape: Shape, ballSize: real, draws: seq<(real, real)>)
      requires Valid()
      requires ballSize >= 0.0
      requires |draws| >= ballCount
      modifies this`balls
      ensures Valid()
      ensures |balls| == |old(balls)| + LoopCount(ballCount)
      ensures balls[..|old(balls)|] == old(balls)
      ensures forall j :: |old(balls)| <= j < |balls| ==>
        && fresh(balls[j])
        && balls[j].shape == ballShape && balls[j].size == SizeOrDefault(Some(ballSize))
        && balls[j].position == SpawnPosition(draws[j - |old(balls)|])
        && balls[j].velocity == Zero && balls[j].acceleration == Zero
    {
      var i := 0;
      while i < ballCount
        invariant 0 <= i <= LoopCount(ballCount)
        invariant Valid()
        invariant |balls| == |old(balls)| + i
        invariant balls[..|old(balls)|] == old(balls)
        invariant forall j :: |old(balls)| <= j < |balls| ==>
          && fresh(balls[j])
          && balls[j].shape == ballShape && balls[j].size == SizeOrDefault(Some(ballSize))
          && balls[j].position == SpawnPosition(draws[j - |old(balls)|])
          && balls[j].velocity == Zero && balls[j].acceleration == Zero
      {
        var startPosition := Vec(draws[i].0 * 100.0, draws[i].1 * 100.0);
        var ball := new Ball(ballShape, Some(ballSize), Some(startPosition), Width, Height);
        balls := balls + [ball];
        i := i + 1;
      }
    }

    /** `mouseClicked`: a left click inside the canvas appends one ball of size 5 at the translated position. */
    method MouseClicked(leftButton: bool, mouseX: real, mouseY: real, ballShape: Shape)
      requires Valid()
      modifies this`balls
      ensures Valid()
      ensures !ClickSpawns(leftButton, mouseX, mouseY) ==> balls == old(balls)
      ensures ClickSpawns(leftButton, mouseX, mouseY) ==>
        && |balls| == |old(balls)| + 1 && balls[..|old(balls)|] == old(balls)
        && var b := balls[|old(balls)|];
           fresh(b) && b.shape == ballShape && b.size == 5.0
           && b.position == ClickPosition(mouseX, mouseY) && b.velocity == Zero && b.acceleration == Zero
    {
      if leftButton && mouseX >= 0.0 && mouseX <= Width && mouseY >= 0.0 && mouseY <= Height {
        var x := mouseX - Width / 2.0;
        var y := mouseY - Height / 2.0;
        var ball := new Ball(ballShape, Some(5.0), Some(Vec(x, y)), Width, Height);
        balls := balls + [ball];
      }
    }

    /** `draw`: one frame over the current list, against the boundary's edges. */
    method Draw(edges: seq<Vec>, sqrt: real -> real)
      requires Valid()
      modifies this`balls, balls
      ensures Valid()
      ensures SlotsOf(balls) == FrameFrom(old(SlotsOf(balls)), 0, World(forces, edges, sqrt))
    {
      ghost var w := World(forces, edges, sqrt);
      ghost var s0 := SlotsOf(balls);
      var index := 0;
      while index < |balls|
        invariant Valid()
        invariant forall b :: b in balls ==> b in old(balls)
        invariant FrameFrom(SlotsOf(balls), index, w) == FrameFrom(s0, 0, w)
        decreases |balls| - index
      {
        ghost var before := SlotsOf(balls);
        assert forall i :: 0 <= i < |balls| ==> balls[i] in old(balls);
        VisitBall(index, edges, sqrt);
        FrameStep(before, index, w);
        index := index + 1;
      }
      LastFrameStep(SlotsOf(balls), index, w);
    }

    /** The `forEach` callback for the ball at `index`. */
    method VisitBall(index: nat, edges: seq<Vec>, sqrt: real -> real)
      requires Valid() && index < |balls|
      modifies this`balls, balls
      ensures Valid()
      ensures forall b :: b in balls ==> b in old(balls)
      ensures SlotsOf(balls) == Visit(old(SlotsOf(balls)), index, World(forces, edges, sqrt))
    {
      Advance(index, edges, sqrt);
      Cull(index);
    }

    /** `applyForces`, `update` and `checkSiblingCollision` for the ball at `index`. */
    method Advance(index: nat, edges: seq<Vec>, sqrt: real -> real)
      requires Valid() && index < |balls|
      modifies balls
      ensures SlotsOf(balls) == Advanced(old(SlotsOf(balls)), index, World(forces, edges, sqrt))
    {
      Move(index, edges);
      Collide(index, sqrt);
    }

    /** `applyForces` then `update` for the ball at `index`; no other ball changes. */
    method Move(index: nat, edges: seq<Vec>)
      requires Valid() && index < |balls|
      modifies balls[index]
      ensures var s := old(SlotsOf(balls));
        SlotsOf(balls) == s[index := s[index].(kin := Moved(s[index], forces, edges))]
    {
      ghost var s := SlotsOf(balls);
      var ball := balls[index];
      ball.ApplyForces(forces);
      ball.Update(edges);
      forall j | 0 <= j < |balls|
        ensures SlotsOf(balls)[j] == s[index := s[index].(kin := Moved(s[index], forces, edges))][j]
      {
        assert balls[j] == ball <==> j == index;
      }
    }

    /** `checkSiblingCollision(balls)` for the ball at `index`. */
    method Collide(index: nat, sqrt: real -> real)
      requires Valid() && index < |balls|
      modifies balls
      ensures SlotsOf(balls) == Collided(old(SlotsOf(balls)), index, sqrt)
    {
      ghost var s := SlotsOf(balls);
      var ball := balls[index];
      forall j | 0 <= j < |balls| ensures Entries(balls, ball)[j] == SiblingEntries(s, index)[j] {
        assert balls[j] == ball <==> j == index;
      }
      assert Entries(balls, ball) == SiblingEntries(s, index);
      ball.CheckSiblingCollision(balls, sqrt);
      forall j | 0 <= j < |balls| ensures SlotsOf(balls)[j] == Collided(s, index, sqrt)[j] {
        assert balls[j] == ball <==> j == index;
      }
    }

    /** The two cull tests for the ball at `index`, each `splice(index, 1)`. */
    method Cull(index: nat)
      requires Valid() && index < |balls|
      modifies this`balls
      ensures Valid()
      ensures forall b :: b in balls ==> b in old(balls)
      ensures SlotsOf(balls) == CullAt(old(SlotsOf(balls)), index)
    {
      var ball := balls[index];
      ghost var s := SlotsOf(balls);
      ghost var p := s[index];
      assert p.kin.position == ball.position && p.size == ball.size;
      if ball.position.x + ball.size > Width || ball.position.x + ball.size < -Width {
        SpliceSlots(balls, index);
        balls := Splice(balls, index);
      }
      ghost var once := SlotsOf(balls);
      assert once == if OffScreenX(p.kin.position, p.size) then Splice(s, index) else s;
      if ball.position.y + ball.size > Height || ball.position.y + ball.size < -Height {
        SpliceSlots(balls, index);
        balls := Splice(balls, index);
      }
      assert SlotsOf(balls) == if OffScreenY(p.kin.position, p.size) then Splice(once, index) else once;
      CullSteps(s, index);
    }
  }

  /** Splicing the list splices its slots; distinct balls stay distinct and no ball is added. */
  lemma SpliceSlots(balls: seq<Ball>, k: nat)
    requires Distinct(balls)
    ensures SlotsOf(Splice(balls, k)) == Splice(SlotsOf(balls), k)
    ensures Distinct(Splice(balls, k))
    ensures forall b :: b in Splice(balls, k) ==> b in balls
  {
    SpliceDistinct(balls, k);
  }

  lemma SpliceDistinct<T>(s: seq<T>, k: nat)
    requires Distinct(s)
    ensures Distinct(Splice(s, k))
    ensures forall x :: x in Splice(s, k) ==> x in s
  {
    if k < |s| {
      var r := Splice(s, k);
      forall i, j | 0 <= i < j < |r| ensures r[i] != r[j] {
        var i', j' := if i < k then i else i + 1, if j < k then j else j + 1;
        assert r[i] == s[i'] && r[j] == s[j'];
      }
      forall x | x in r ensures x in s {
        var i :| 0 <= i < |r| && r[i] == x;
        assert r[i] == s[if i < k then i else i + 1];
      }
    }
  }
}
