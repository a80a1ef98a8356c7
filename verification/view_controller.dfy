/** ViewController: the sampler's anchor rule, its suspend/resume flag, and the undo/redo buttons. */
module ViewController {
  import opened Wrappers
  import opened Geometry
  import opened BrushModel
  import Canvas = CanvasProvider
  import Queue = QueueProvider

  /** Label of the controller's dispatch queue. */
  const QueueLabel := "com.AnthonyKrivonos.ARtist.DispatchQueue"

  /** How far in front of the camera the canvas draws. */
  const DefaultBrushOffset: real := 0.1

  /** Number passed to `undo(specificity:)` by the undo button. */
  const UndoSpecificity: int := 10

  /**
   * The controller state the drawing loop touches: the canvas, the live brush, the anchor
   * (`currentWorldCoord`, the last projected point), the dispatch flag, and the number of
   * `suspend()` and `resume()` calls made on the underlying dispatch queue.
   */
  datatype Controller = Controller(
    canvas: Canvas.Canvas,
    brush: Option<Brush>,
    anchor: Option<Vec3>,
    dispatchSuspended: bool,
    suspendCalls: nat,
    resumeCalls: nat)

  /** The controller's dispatch flag read as a QueueProvider queue. */
  function AsQueue(vc: Controller): Queue.Queue {
    Queue.Queue(QueueLabel, vc.dispatchSuspended, vc.suspendCalls, vc.resumeCalls)
  }

  /** `resumeUpdateQueue()`: resumes the underlying queue only when suspended, then clears the flag. */
  function ResumeUpdateQueue(vc: Controller): (r: Controller)
    ensures !r.dispatchSuspended
    ensures Queue.Balanced(AsQueue(vc)) ==> Queue.Balanced(AsQueue(r))
    ensures r.canvas == vc.canvas && r.anchor == vc.anchor && r.brush == vc.brush
  {
    var vc' := if vc.dispatchSuspended then vc.(resumeCalls := vc.resumeCalls + 1) else vc;
    vc'.(dispatchSuspended := false)
  }

  /** `suspendUpdateQueue()`: suspends the underlying queue only when running, then sets the flag. */
  function SuspendUpdateQueue(vc: Controller): (r: Controller)
    ensures r.dispatchSuspended
    ensures Queue.Balanced(AsQueue(vc)) ==> Queue.Balanced(AsQueue(r))
    ensures r.canvas == vc.canvas && r.anchor == vc.anchor && r.brush == vc.brush
  {
    var vc' := if !vc.dispatchSuspended then vc.(suspendCalls := vc.suspendCalls + 1) else vc;
    vc'.(dispatchSuspended := true)
  }

  /** The controller keeps the same flag machine as QueueProvider, although it sets the flag unconditionally. */
  lemma FlagAgreesWithQueueProvider(vc: Controller)
    ensures AsQueue(ResumeUpdateQueue(vc)) == Queue.Resume(AsQueue(vc))
    ensures AsQueue(SuspendUpdateQueue(vc)) == Queue.Suspend(AsQueue(vc))
  {
  }

  /**
   * `handleTap()`, one sample of the drawing loop: project the cursor; draw a segment from the
   * anchor only when a brush and an anchor exist; then the projected point becomes the anchor.
   */
  function HandleTap(vc: Controller, frame: Option<Mat4>, dist: (Vec3, Vec3) -> real): (r: Controller)
    ensures r.anchor == Some(Canvas.WorldCoordinates(vc.canvas, frame))
    ensures vc.brush.Some? && vc.anchor.Some? ==>
              r.canvas == Canvas.DrawThickLine(vc.canvas, vc.brush.value, vc.anchor.value,
                                               Canvas.WorldCoordinates(vc.canvas, frame), dist).0
    ensures vc.brush.None? || vc.anchor.None? ==> r.canvas == vc.canvas
    ensures r.brush == vc.brush && r.dispatchSuspended == vc.dispatchSuspended
    ensures r.suspendCalls == vc.suspendCalls && r.resumeCalls == vc.resumeCalls
  {
    var world := Canvas.WorldCoordinates(vc.canvas, frame);
    var canvas :=
      if vc.brush.Some? && vc.anchor.Some? then Canvas.DrawThickLine(vc.canvas, vc.brush.value, vc.anchor.value, world, dist).0
      else vc.canvas;
    vc.(canvas := canvas, anchor := Some(world))
  }

  /** `touchesBegan`: starts the sampler by resuming the update queue (cursor placement is not modelled). */
  function TouchesBegan(vc: Controller): (r: Controller)
    ensures !r.dispatchSuspended && r.anchor == vc.anchor && r.canvas == vc.canvas
  {
    ResumeUpdateQueue(vc)
  }

  /** `touchesEnded`: forgets the anchor and suspends the sampler. */
  function TouchesEnded(vc: Controller): (r: Controller)
    ensures r.anchor.None? && r.dispatchSuspended && r.canvas == vc.canvas
  {
    SuspendUpdateQueue(vc.(anchor := None))
  }

  /** The samples one gesture takes, one camera frame each, in order. */
  function Sample(vc: Controller, frames: seq<Option<Mat4>>, dist: (Vec3, Vec3) -> real): Controller
    decreases |frames|
  {
    if |frames| == 0 then vc
    else HandleTap(Sample(vc, frames[..|frames| - 1], dist), frames[|frames| - 1], dist)
  }

  /** A whole gesture: touch down, the samples, touch up. */
  function Gesture(vc: Controller, frames: seq<Option<Mat4>>, dist: (Vec3, Vec3) -> real): Controller {
    TouchesEnded(Sample(TouchesBegan(vc), frames, dist))
  }

  /**
   * Starting without an anchor, `k` samples draw `k - 1` segments when a brush is set and none
   * otherwise; after at least one sample the anchor is set.
   */
  lemma {:induction false} SampleDrawsOneFewer(vc: Controller, frames: seq<Option<Mat4>>, dist: (Vec3, Vec3) -> real)
    requires vc.anchor.None?
    ensures var r := Sample(vc, frames, dist);
            && r.brush == vc.brush
            && (|frames| > 0 ==> r.anchor.Some?)
            && |r.canvas.drawList| == |vc.canvas.drawList| + (if vc.brush.Some? && |frames| > 0 then |frames| - 1 else 0)
    decreases |frames|
  {
    if |frames| > 0 {
      SampleDrawsOneFewer(vc, frames[..|frames| - 1], dist);
    }
  }

  /** A gesture with `k` samples draws at most `k - 1` segments and ends with no anchor, sampler suspended. */
  lemma GestureSegments(vc: Controller, frames: seq<Option<Mat4>>, dist: (Vec3, Vec3) -> real)
    requires vc.anchor.None?
    ensures var r := Gesture(vc, frames, dist);
            && r.anchor.None? && r.dispatchSuspended
            && |r.canvas.drawList| <= |vc.canvas.drawList| + (if |frames| > 0 then |frames| - 1 else 0)
            && (vc.brush.Some? && |frames| > 0 ==> |r.canvas.drawList| == |vc.canvas.drawList| + |frames| - 1)
  {
    SampleDrawsOneFewer(TouchesBegan(vc), frames, dist);
  }

  /** `displayOperations()`: which of the undo and redo buttons are hidden. */
  function DisplayOperations(vc: Controller): (hidden: (bool, bool))
    ensures hidden.0 <==> |vc.canvas.drawList| == 0
    ensures hidden.1 <==> |vc.canvas.undoList| == 0
  {
    (!Canvas.CanUndo(vc.canvas), !Canvas.CanRedo(vc.canvas))
  }

  /** `undoButtonPressed`: undoes up to eleven nodes, and only when undo is possible. */
  function UndoButtonPressed(vc: Controller): (r: Controller)
    ensures !Canvas.CanUndo(vc.canvas) ==> r == vc
    ensures Canvas.CanUndo(vc.canvas) ==>
              && |r.canvas.drawList| == |vc.canvas.drawList| - (if UndoSpecificity + 1 < |vc.canvas.drawList| then UndoSpecificity + 1 else |vc.canvas.drawList|)
              && |r.canvas.undoList| == |vc.canvas.undoList| + 1
    ensures Canvas.CanUndo(vc.canvas) ==>
              var n := |vc.canvas.drawList|;
              var batch := r.canvas.undoList[|r.canvas.undoList| - 1];
              && |r.canvas.drawList| + |batch| == n
              && r.canvas.drawList == vc.canvas.drawList[..n - |batch|]
              && (forall i :: 0 <= i < |batch| ==> batch[i] == vc.canvas.drawList[n - 1 - i])
              && r.canvas.scene == vc.canvas.scene - Canvas.Members(batch)
              && r.canvas.undoList == vc.canvas.undoList + [batch]
    ensures Canvas.CanUndo(vc.canvas) ==> r.canvas == Canvas.Undo(vc.canvas, UndoSpecificity).0
    ensures r == vc.(canvas := r.canvas)
  {
    if Canvas.CanUndo(vc.canvas) then vc.(canvas := Canvas.Undo(vc.canvas, UndoSpecificity).0) else vc
  }

  /** `redoButtonPressed`: redoes the last batch, and only when redo is possible. */
  function RedoButtonPressed(vc: Controller): (r: Controller)
    ensures !Canvas.CanRedo(vc.canvas) ==> r == vc
    ensures Canvas.CanRedo(vc.canvas) ==> |r.canvas.undoList| == |vc.canvas.undoList| - 1
    ensures Canvas.CanRedo(vc.canvas) ==>
              var batch := vc.canvas.undoList[|vc.canvas.undoList| - 1];
              && r.canvas.undoList + [batch] == vc.canvas.undoList
              && r.canvas.scene == vc.canvas.scene + Canvas.Members(batch)
    ensures Canvas.CanRedo(vc.canvas) ==> r.canvas == Canvas.Redo(vc.canvas).0
    ensures r.canvas.drawList == vc.canvas.drawList
    ensures r.canvas.worldOffset == vc.canvas.worldOffset && r.canvas.nextId == vc.canvas.nextId
    ensures r == vc.(canvas := r.canvas)
  {
    if Canvas.CanRedo(vc.canvas) then vc.(canvas := Canvas.Redo(vc.canvas).0) else vc
  }

  /**
   * The redo button right after the undo button gives the scene and the undo list back, and leaves
   * the draw list short by the batch; the rest of the controller is untouched throughout.
   */
  lemma UndoThenRedoButtons(vc: Controller)
    requires Canvas.CanUndo(vc.canvas) && Canvas.Attached(vc.canvas)
    ensures var undone := UndoButtonPressed(vc);
            var redone := RedoButtonPressed(undone);
            var batch := undone.canvas.undoList[|undone.canvas.undoList| - 1];
            && redone.canvas.scene == vc.canvas.scene
            && redone.canvas.undoList == vc.canvas.undoList
            && redone.canvas.drawList == vc.canvas.drawList[..|vc.canvas.drawList| - |batch|]
            && redone == vc.(canvas := redone.canvas)
  {
    Canvas.UndoThenRedo(vc.canvas, UndoSpecificity);
  }

  /** Once the undo button has acted, the redo button shows; with at most eleven nodes drawn, the undo button hides. */
  lemma UndoButtonShowsRedo(vc: Controller)
    requires Canvas.CanUndo(vc.canvas)
    ensures !DisplayOperations(UndoButtonPressed(vc)).1
    ensures |vc.canvas.drawList| <= UndoSpecificity + 1 ==> DisplayOperations(UndoButtonPressed(vc)).0
  {
  }
}
