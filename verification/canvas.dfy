/** CanvasProvider: projection into the world, segment geometry, and the node-based undo/redo history. */
module CanvasProvider {
  import opened Wrappers
  import opened Geometry
  import opened BrushModel

  /** The geometry a drawn node carries. */
  datatype Shape = Sphere(radius: real) | Cylinder(radius: real, height: real)

  /**
   * An SCNNode created by the canvas: a unique identity, its geometry and the translation of its
   * transform (the rotation part of a cylinder's transform is not modelled).
   */
  datatype Node = Node(id: nat, shape: Shape, position: Vec3)

  /**
   * The canvas: the camera offset, the list of drawn nodes, the batches undo removed, the nodes
   * attached to the scene's root node, and the next fresh node identity.
   */
  datatype Canvas = Canvas(
    worldOffset: real,
    drawList: seq<Node>,
    undoList: seq<seq<Node>>,
    scene: set<Node>,
    nextId: nat)

  /** The elements of a list as a set. */
  function Members(ns: seq<Node>): set<Node> {
    set n | n in ns
  }

  /** No node appears twice in a list. */
  predicate Distinct(ns: seq<Node>) {
    forall i, j :: 0 <= i < j < |ns| ==> ns[i] != ns[j]
  }

  /** Every drawn node is attached to the scene. */
  predicate Attached(c: Canvas) {
    Members(c.drawList) <= c.scene
  }

  /** `canUndo()`. */
  predicate CanUndo(c: Canvas): (b: bool)
    ensures b <==> UndoNode(c).1.Some?
  {
    |c.drawList| > 0
  }

  /** `canRedo()`. */
  predicate CanRedo(c: Canvas) {
    |c.undoList| > 0
  }

  /** `init(canvasView:worldOffset:)`: empty lists, so neither undo nor redo is possible. */
  function New(worldOffset: real): (c: Canvas)
    ensures c.worldOffset == worldOffset
    ensures !CanUndo(c) && !CanRedo(c) && Attached(c)
  {
    Canvas(worldOffset, [], [], {}, 0)
  }

  //
  // Coordinate functions
  //

  /** Forward direction used when no camera frame is available. */
  const FallbackDirection := Vec3(0.0, 0.0, -1.0)

  /** Camera position used when no camera frame is available. */
  const FallbackPosition := Vec3(0.0, 0.0, -0.2)

  /**
   * `getScreenCoordinates`: (direction, position) of the camera. The direction is the negated third
   * row of the camera transform and the position its fourth row; without a frame, fixed fallbacks.
   */
  function ScreenCoordinates(frame: Option<Mat4>): (r: (Vec3, Vec3))
    ensures frame.None? ==> r == (FallbackDirection, FallbackPosition)
    ensures frame.Some? ==>
              && r.0 == Vec3(-frame.value.m31, -frame.value.m32, -frame.value.m33)
              && r.1 == Vec3(frame.value.m41, frame.value.m42, frame.value.m43)
  {
    match frame
    case Some(m) => (Vec3(-1.0 * m.m31, -1.0 * m.m32, -1.0 * m.m33), Vec3(m.m41, m.m42, m.m43))
    case None => (Vec3(0.0, 0.0, -1.0), Vec3(0.0, 0.0, -0.2))
  }

  /**
   * `getWorldCoordinates`: the point `worldOffset` along the camera's forward direction from its
   * position. Never fails: without a frame it is `worldOffset` beyond the fallback position.
   */
  function WorldCoordinates(c: Canvas, frame: Option<Mat4>): (p: Vec3)
    ensures Sub(p, ScreenCoordinates(frame).1) == Scale(ScreenCoordinates(frame).0, c.worldOffset)
    ensures frame.None? ==> p == Vec3(0.0, 0.0, -0.2 - c.worldOffset)
  {
    var (d0, d1) := ScreenCoordinates(frame);
    Vec3(d1.x + d0.x * c.worldOffset, d1.y + d0.y * c.worldOffset, d1.z + d0.z * c.worldOffset)
  }

  /**
   * The fallbacks are what an unrotated camera 0.2 behind the origin would report: looking down the
   * negative z axis from (0, 0, -0.2).
   */
  lemma FallbackIsUnrotatedCamera()
    ensures ScreenCoordinates(Some(Mat4(1.0, 0.0, 0.0, 0.0,
                                        0.0, 1.0, 0.0, 0.0,
                                        0.0, 0.0, 1.0, 0.0,
                                        0.0, 0.0, -0.2, 1.0)))
         == ScreenCoordinates(None)
  {
  }

  /**
   * Moving the camera without turning it (changing only the transform's fourth row by `v`) keeps the
   * direction and moves the projected point by exactly `v`.
   */
  lemma CameraTranslationMovesPoint(c: Canvas, m: Mat4, v: Vec3)
    ensures var moved := m.(m41 := m.m41 + v.x, m42 := m.m42 + v.y, m43 := m.m43 + v.z);
            && ScreenCoordinates(Some(moved)).0 == ScreenCoordinates(Some(m)).0
            && WorldCoordinates(c, Some(moved)) == Add(WorldCoordinates(c, Some(m)), v)
  {
  }

  //
  // Drawing functions
  //

  /** Every node the canvas knows about has an identity below `nextId`. */
  predicate FreshIds(c: Canvas) {
    && (forall n :: n in c.scene ==> n.id < c.nextId)
    && (forall i :: 0 <= i < |c.drawList| ==> c.drawList[i].id < c.nextId)
    && (forall i, j :: 0 <= i < |c.undoList| && 0 <= j < |c.undoList[i]| ==> c.undoList[i][j].id < c.nextId)
  }

  /**
   * `drawThickLine(brush:from:to:)`. `dist` is the distance SceneKit measures between the points.
   * A zero distance gives a sphere of the brush's size at `from`; otherwise a cylinder of the
   * brush's size, as tall as the distance, placed at the midpoint. Either way the one new node is
   * attached to the scene and appended to the draw list, and the redo batches are kept.
   */
  function DrawThickLine(c: Canvas, brush: Brush, from: Vec3, to: Vec3, dist: (Vec3, Vec3) -> real): (r: (Canvas, Node))
    ensures dist(from, to) == 0.0 ==> r.1.shape == Sphere(brush.size) && r.1.position == from
    ensures dist(from, to) != 0.0 ==>
              r.1.shape == Cylinder(brush.size, dist(from, to)) && r.1.position == Midpoint(from, to)
    ensures r.0.drawList == c.drawList + [r.1]
    ensures r.0.scene == c.scene + {r.1}
    ensures r.0.undoList == c.undoList && r.0.worldOffset == c.worldOffset
    ensures FreshIds(c) ==> FreshIds(r.0) && r.1 !in c.scene && r.1 !in c.drawList
    ensures Attached(c) ==> Attached(r.0)
    ensures FreshIds(c) && Distinct(c.drawList) ==> Distinct(r.0.drawList)
  {
    var d := dist(from, to);
    var node :=
      if d == 0.0 then Node(c.nextId, Sphere(brush.size), from)
      else Node(c.nextId, Cylinder(brush.size, d), Vec3((from.x + to.x) / 2.0, (from.y + to.y) / 2.0, (from.z + to.z) / 2.0));
    (c.(drawList := c.drawList + [node], scene := c.scene + {node}, nextId := c.nextId + 1), node)
  }

  /** A segment between a point and itself is a sphere at that point, for any brush. */
  lemma DegenerateSegmentIsSphere(c: Canvas, brush: Brush, p: Vec3, dist: (Vec3, Vec3) -> real)
    requires forall a :: dist(a, a) == 0.0
    ensures DrawThickLine(c, brush, p, p, dist).1.shape == Sphere(brush.size)
    ensures DrawThickLine(c, brush, p, p, dist).1.position == p
  {
  }

  //
  // Undo functions
  //

  /** `undoNode()`: pops the last drawn node, if any, and detaches it from the scene. */
  function UndoNode(c: Canvas): (r: (Canvas, Option<Node>))
    ensures |c.drawList| == 0 ==> r == (c, None)
    ensures |c.drawList| > 0 ==>
              && r.1 == Some(c.drawList[|c.drawList| - 1])
              && r.0.drawList + [r.1.value] == c.drawList
              && r.0.scene == c.scene - {r.1.value}
              && r.0.undoList == c.undoList
  {
    if |c.drawList| == 0 then (c, None)
    else
      var node := c.drawList[|c.drawList| - 1];
      (c.(drawList := c.drawList[..|c.drawList| - 1], scene := c.scene - {node}), Some(node))
  }

  /**
   * What `iterations` calls of `undoNode()` on `c` leave, as the pair (canvas, collected nodes): the
   * last `min(iterations, |drawList|)` drawn nodes come off, last first, and exactly those are
   * detached from the scene; nothing else changes.
   */
  ghost predicate UndoneFromEnd(c: Canvas, iterations: nat, r: (Canvas, seq<Node>)) {
    var n := |c.drawList|;
    var m := if iterations < n then iterations else n;
    && |r.1| == m
    && (forall i :: 0 <= i < m ==> r.1[i] == c.drawList[n - 1 - i])
    && r.0.drawList == c.drawList[..n - m]
    && (forall y :: y in r.0.scene <==> y in c.scene && y !in r.1)
    && r.0.undoList == c.undoList
    && r.0.worldOffset == c.worldOffset
    && r.0.nextId == c.nextId
  }

  /** One `undoNode()` in front of `iterations - 1` more is `iterations` of them. */
  lemma UndoLoopStep(c: Canvas, iterations: nat, r: (Canvas, seq<Node>))
    requires iterations > 0 && |c.drawList| > 0
    requires UndoneFromEnd(UndoNode(c).0, iterations - 1, r)
    ensures UndoneFromEnd(c, iterations, (r.0, [c.drawList[|c.drawList| - 1]] + r.1))
  {
    var n := |c.drawList|;
    var batch := [c.drawList[n - 1]] + r.1;
    assert UndoNode(c).0.drawList == c.drawList[..n - 1];
    forall i | 0 <= i < |batch|
      ensures batch[i] == c.drawList[n - 1 - i]
    {
      if i > 0 {
        assert batch[i] == r.1[i - 1];
      }
    }
  }

  /** `iterations` calls of `undoNode()`, collecting the nodes it returns. */
  function UndoLoop(c: Canvas, iterations: nat): (r: (Canvas, seq<Node>))
    ensures UndoneFromEnd(c, iterations, r)
    decreases iterations
  {
    if iterations == 0 || |c.drawList| == 0 then
      // With nothing drawn, every remaining `undoNode()` returns nil and changes nothing.
      (c, [])
    else
      var r := UndoLoop(UndoNode(c).0, iterations - 1);
      UndoLoopStep(c, iterations, r);
      (r.0, [c.drawList[|c.drawList| - 1]] + r.1)
  }

  /**
   * `undo(specificity:)`. The loop `for _ in 0...remove` runs `remove + 1` times, with `remove`
   * the specificity capped at the list length, so `min(s + 1, |drawList|)` nodes come off, last
   * first; the batch is appended to the undo list even when it is empty.
   */
  function Undo(c: Canvas, specificity: int): (r: (Canvas, seq<Node>))
    requires specificity >= 0
    ensures var n := |c.drawList|;
            var k := if specificity + 1 < n then specificity + 1 else n;
            && |r.1| == k
            && (forall i :: 0 <= i < k ==> r.1[i] == c.drawList[n - 1 - i])
            && r.0.drawList == c.drawList[..n - k]
            && r.0.scene == c.scene - Members(r.1)
            && r.0.undoList == c.undoList + [r.1]
            && r.0.worldOffset == c.worldOffset
            && r.0.nextId == c.nextId
  {
    var remove := if specificity > |c.drawList| then |c.drawList| else specificity;
    var (c1, removed) := UndoLoop(c, remove + 1);
    (c1.(undoList := c1.undoList + [removed]), removed)
  }

  /**
   * `redo()`: pops the last undo batch (nil when there is none) and re-attaches its nodes to the
   * scene only; the draw list is not restored.
   */
  function Redo(c: Canvas): (r: (Canvas, Option<seq<Node>>))
    ensures !CanRedo(c) ==> r == (c, None)
    ensures CanRedo(c) ==>
              && r.1 == Some(c.undoList[|c.undoList| - 1])
              && r.0.undoList + [r.1.value] == c.undoList
              && r.0.scene == c.scene + Members(r.1.value)
    ensures r.0.drawList == c.drawList
    ensures r.0.worldOffset == c.worldOffset && r.0.nextId == c.nextId
  {
    if |c.undoList| == 0 then (c, None)
    else
      var batch := c.undoList[|c.undoList| - 1];
      (c.(undoList := c.undoList[..|c.undoList| - 1], scene := c.scene + Members(batch)), Some(batch))
  }

  //
  // Properties
  //

  /** Undo keeps every remaining drawn node attached. */
  lemma UndoKeepsAttached(c: Canvas, specificity: int)
    requires specificity >= 0 && Attached(c) && Distinct(c.drawList)
    ensures Attached(Undo(c, specificity).0)
  {
    var n := |c.drawList|;
    var k := if specificity + 1 < n then specificity + 1 else n;
    var (c1, batch) := Undo(c, specificity);
    forall x | x in c1.drawList
      ensures x in c1.scene
    {
      var j :| 0 <= j < |c1.drawList| && c1.drawList[j] == x;
      assert x == c.drawList[j];
      forall i | 0 <= i < k
        ensures batch[i] != x
      {
        assert batch[i] == c.drawList[n - 1 - i];
      }
    }
  }

  /**
   * `canRedo()` says whether redo has a batch to hand back, and every undo makes redo possible,
   * since it records its batch even when the batch is empty.
   */
  lemma UndoEnablesRedo(c: Canvas, specificity: int)
    requires specificity >= 0
    ensures CanRedo(c) <==> Redo(c).1.Some?
    ensures CanRedo(Undo(c, specificity).0)
  {
  }

  /**
   * Redo right after undo hands back the same batch and restores the scene, but the draw list
   * stays short by the batch: redone nodes can no longer be undone.
   */
  lemma UndoThenRedo(c: Canvas, specificity: int)
    requires specificity >= 0 && Attached(c)
    ensures var (c1, batch) := Undo(c, specificity);
            var (c2, redone) := Redo(c1);
            && redone == Some(batch)
            && c2.scene == c.scene
            && c2.undoList == c.undoList
            && c2.drawList == c.drawList[..|c.drawList| - |batch|]
            && c2.worldOffset == c.worldOffset && c2.nextId == c.nextId
  {
    var (c1, batch) := Undo(c, specificity);
    assert Members(batch) <= Members(c.drawList) by {
      forall x | x in Members(batch) ensures x in Members(c.drawList) {
        var i :| 0 <= i < |batch| && batch[i] == x;
      }
    }
    assert (c.undoList + [batch])[..|c.undoList|] == c.undoList;
  }

  /** Undo with specificity 0 takes off exactly the last drawn node. */
  lemma UndoZeroTakesLast(c: Canvas)
    requires CanUndo(c)
    ensures var last := c.drawList[|c.drawList| - 1];
            && Undo(c, 0).1 == [last]
            && Undo(c, 0).0.drawList == c.drawList[..|c.drawList| - 1]
            && Undo(c, 0).0.scene == c.scene - {last}
            && Undo(c, 0).0.undoList == c.undoList + [[last]]
  {
    var batch := Undo(c, 0).1;
    assert batch == [c.drawList[|c.drawList| - 1]];
    assert Members(batch) == {c.drawList[|c.drawList| - 1]};
  }

  /** Drawing a segment and undoing with specificity 0 removes exactly that segment's node. */
  lemma DrawThenUndo(c: Canvas, brush: Brush, from: Vec3, to: Vec3, dist: (Vec3, Vec3) -> real)
    requires FreshIds(c)
    ensures var (c1, node) := DrawThickLine(c, brush, from, to, dist);
            && Undo(c1, 0).1 == [node]
            && Undo(c1, 0).0.drawList == c.drawList
            && Undo(c1, 0).0.scene == c.scene
            && Undo(c1, 0).0.undoList == c.undoList + [[node]]
  {
    var (c1, node) := DrawThickLine(c, brush, from, to, dist);
    assert node !in c.scene;
    UndoZeroTakesLast(c1);
    assert c1.drawList[..|c.drawList|] == c.drawList;
    assert (c.scene + {node}) - {node} == c.scene;
  }

  //
  // Runs of canvas operations
  //

  /** The canvas invariant: drawn nodes are attached and distinct, and every identity is below `nextId`. */
  ghost predicate WellFormed(c: Canvas) {
    Attached(c) && Distinct(c.drawList) && FreshIds(c)
  }

  /** Undo keeps the canvas invariant. */
  lemma UndoKeepsWellFormed(c: Canvas, specificity: int)
    requires specificity >= 0 && WellFormed(c)
    ensures WellFormed(Undo(c, specificity).0)
  {
    UndoKeepsAttached(c, specificity);
    var n := |c.drawList|;
    var (c1, batch) := Undo(c, specificity);
    assert forall i :: 0 <= i < |c1.drawList| ==> c1.drawList[i] == c.drawList[i];
    forall i, j | 0 <= i < |c1.undoList| && 0 <= j < |c1.undoList[i]|
      ensures c1.undoList[i][j].id < c1.nextId
    {
      if i == |c.undoList| {
        assert c1.undoList[i][j] == c.drawList[n - 1 - j];
      } else {
        assert c1.undoList[i] == c.undoList[i];
      }
    }
  }

  /** Redo keeps the canvas invariant: the scene only grows, by nodes the undo list already holds. */
  lemma RedoKeepsWellFormed(c: Canvas)
    requires WellFormed(c)
    ensures WellFormed(Redo(c).0)
  {
    if CanRedo(c) {
      var (c1, batch) := Redo(c);
      var last := |c.undoList| - 1;
      forall x | x in c1.scene
        ensures x.id < c1.nextId
      {
        if x !in c.scene {
          var j :| 0 <= j < |batch.value| && batch.value[j] == x;
          assert c.undoList[last][j] == x;
        }
      }
      forall i, j | 0 <= i < |c1.undoList| && 0 <= j < |c1.undoList[i]|
        ensures c1.undoList[i][j].id < c1.nextId
      {
        assert c1.undoList[i] == c.undoList[i];
      }
    }
  }

  /** The canvas operations the view controller performs. */
  datatype Op = DrawOp(brush: Brush, from: Vec3, to: Vec3) | UndoOp(specificity: nat) | RedoOp

  /** One operation; `dist` is the distance SceneKit measures. */
  function Apply(c: Canvas, op: Op, dist: (Vec3, Vec3) -> real): Canvas {
    match op
    case DrawOp(brush, from, to) => DrawThickLine(c, brush, from, to, dist).0
    case UndoOp(specificity) => Undo(c, specificity).0
    case RedoOp => Redo(c).0
  }

  /** Operations applied in order. */
  function Run(c: Canvas, ops: seq<Op>, dist: (Vec3, Vec3) -> real): Canvas
    decreases |ops|
  {
    if |ops| == 0 then c else Run(Apply(c, ops[0], dist), ops[1..], dist)
  }

  /**
   * Any sequence of draws, undos and redos from a new canvas keeps drawn nodes attached and distinct
   * and every identity fresh, so each later draw adds a node the canvas has never seen.
   */
  lemma {:induction false} RunKeepsWellFormed(c: Canvas, ops: seq<Op>, dist: (Vec3, Vec3) -> real)
    requires WellFormed(c)
    ensures WellFormed(Run(c, ops, dist))
    decreases |ops|
  {
    if |ops| > 0 {
      match ops[0] {
        case DrawOp(brush, from, to) =>
        case UndoOp(specificity) => UndoKeepsWellFormed(c, specificity);
        case RedoOp => RedoKeepsWellFormed(c);
      }
      RunKeepsWellFormed(Apply(c, ops[0], dist), ops[1..], dist);
    }
  }

  /** A new canvas satisfies the invariant, so every run from it does. */
  lemma NewIsWellFormed(worldOffset: real, ops: seq<Op>, dist: (Vec3, Vec3) -> real)
    ensures WellFormed(New(worldOffset))
    ensures WellFormed(Run(New(worldOffset), ops, dist))
  {
    RunKeepsWellFormed(New(worldOffset), ops, dist);
  }
}
