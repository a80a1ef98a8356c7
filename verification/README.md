# ARtist core, modelled in Dafny

ARtist is an iOS app for drawing in augmented reality. The camera's forward ray is projected a fixed
distance into the world. While a finger is down, a sampler on a dispatch queue keeps projecting the
cursor. Each new point is joined to the previous one by a thick line segment, which is a SceneKit
sphere or cylinder. Strokes and drawings keep a few aggregates beside their lists: a node or stroke
counter, a per-colour usage map and a total length. Saves are kept in a storage list, upserted by
file name. Sliders set the brush's size and colour, and colour helpers pick highlight and overlay
text colours.

The model is a set of Dafny modules, one per source file of the core:

- `BrushModel`, `StrokeModel`, `DrawingModel`, `SaveModel` and `StorageModel` model the data
  classes. Each is an immutable datatype, and every mutating method is a function that returns the
  new value alongside the method's return value.
- `CanvasProvider` models projection, segment geometry and the node-based undo/redo history. The
  scene graph is a set of nodes with unique identities.
- `QueueProvider` and the queue half of `ViewController` model the suspend/resume flag machine.
- `ViewController` also models the sampling rule: a segment is drawn from the previous anchor to the
  new point.
- `SizeSliderView`, `BrushSizeSliderProvider` and `ColorSliderProvider` model the slider
  arithmetic.
- `Extensions` models the pure helpers: colour adjustment, square cropping, aspect-fit resizing,
  unit conversion and de-duplication.
- `Geometry`, `Colors` and `Wrappers` hold the shared value types (vectors, matrices, CGPoint,
  CGSize, CGRect, UIColor) and `Option`.

Floating-point values (`Float`, `CGFloat`, `Double`) are modelled as exact reals. An array index
that Swift would trap on becomes a `requires` clause. The one place where the trap is evidently a
bug, `StorageModel.remove(save:)`, is modelled both as written and corrected (see Findings). The
darkness rule shared by `isLightColor` and `textColorBasedOnBackground` divides a [0, 1] luminance
by 255. It is also modelled both as written and corrected. `getHighlighted` and `changeSliderColor`
are each modelled twice as well: once wired to the rule as written, as the source calls it, and once
wired to the corrected rule.

Three quantities come from outside the model and are passed in as parameters:

- the camera transform of the current AR frame, which is absent when there is no frame;
- the distance SceneKit measures between two points;
- the bubble centre and drag values that UIKit reports to the size slider.

## Model

| member | source | states |
|---|---|---|
| BrushModel.New | ARtist/Model/BrushModel.swift:22-26 | the stored size times 5200 is the requested size; colour and opacity are stored as given |
| BrushModel.Resize | ARtist/Model/BrushModel.swift:28-30 | the new size times 5200 is the integer slider value; colour and opacity are untouched |
| BrushModel.ResizeLastWriteWins | ARtist/Model/BrushModel.swift:28-30 | resizing twice is the same as resizing once to the second value |
| BrushModel.NewAgreesWithResize | ARtist/Model/BrushModel.swift:22-30 | constructing with a value and resizing to that value give the same stored size |
| BrushModel.Encode | ARtist/Model/BrushModel.swift:36-46 | every field is written under its key, and decoding the archive gives the same brush back |
| BrushModel.Decode | ARtist/Model/BrushModel.swift:42-46 | a missing colour decodes as clear and a missing size or opacity as 0; a present size is taken unscaled |
| BrushModel.DecodeKeepsScaledSize | ARtist/Model/BrushModel.swift:22-46 | encode then decode divides the size by 5200 only once |
| StrokeModel.New | ARtist/Model/StrokeModel.swift:27-32 | a new stroke has no nodes, a zero counter and the given brush, so its counter agrees with its list |
| StrokeModel.Push | ARtist/Model/StrokeModel.swift:53-57 | the node is appended at the end, the counter goes up by one, the new list is returned, and counter/list agreement is kept |
| StrokeModel.RemoveAtIndex | ARtist/Model/StrokeModel.swift:60-67 | with a zero counter nothing changes and nil is returned; otherwise exactly node i is removed and returned, the others keep their order, and the counter drops by one |
| StrokeModel.Pop | ARtist/Model/StrokeModel.swift:70-77 | with a positive counter, the last node is removed and returned, and the counter is decremented even when the list is already empty |
| StrokeModel.Clear | ARtist/Model/StrokeModel.swift:80-84 | the old nodes are returned and the list is emptied, but the counter is left unchanged |
| StrokeModel.ClearBreaksConsistency | ARtist/Model/StrokeModel.swift:80-84 | after clearing a stroke that has nodes, the counter exceeds the (empty) list length |
| StrokeModel.GetAtIndex | ARtist/Model/StrokeModel.swift:87-92 | returns a node exactly when the index is below the counter, and that node is the list's node at that index |
| StrokeModel.GetAfterPush | ARtist/Model/StrokeModel.swift:53-92 | on a stroke whose counter matches its list, the pushed node is read back at the old counter's index and every earlier index reads the same node as before |
| StrokeModel.SetBrushType | ARtist/Model/StrokeModel.swift:119-121 | only the brush changes |
| StrokeModel.NodesLength | ARtist/Model/StrokeModel.swift:110-116 | the summed bounding-box extent is never negative, and it is 0 for no nodes |
| StrokeModel.Length | ARtist/Model/StrokeModel.swift:110-116 | a stroke's length is never negative, and a stroke without nodes has length 0 |
| StrokeModel.NodesLengthAppend | ARtist/Model/StrokeModel.swift:110-116 | the length of two node lists joined together is the sum of their lengths |
| StrokeModel.NodeExtentBoundsLength | ARtist/Model/StrokeModel.swift:110-116 | every node's extent is at most the stroke's length |
| StrokeModel.PushAddsExtent | ARtist/Model/StrokeModel.swift:53-57 | pushing a node adds exactly its extent to the stroke length |
| StrokeModel.PushPop | ARtist/Model/StrokeModel.swift:53-77 | push then pop returns the pushed node and restores the stroke |
| DrawingModel.AppendColor | ARtist/Model/DrawingModel.swift:47-53 | the colour's count goes up by one (starting from 0 when the colour is absent) and every other count is unchanged |
| DrawingModel.RemoveColor | ARtist/Model/DrawingModel.swift:56-63 | the colour's count goes down by one, and the key is dropped when the count reaches 0; an absent colour changes nothing; other counts are unchanged |
| DrawingModel.Empty | ARtist/Model/DrawingModel.swift:25-30 | a new drawing has no strokes, no colours, zero length and a zero count, and it satisfies the aggregate invariant |
| DrawingModel.Push | ARtist/Model/DrawingModel.swift:66-72 | the stroke is appended; the count, its colour's entry and the length grow by one, by one and by the stroke's length; the aggregate invariant is kept |
| DrawingModel.RemoveAtIndex | ARtist/Model/DrawingModel.swift:75-84 | with a zero count it returns nil; otherwise it removes exactly stroke i and takes it out of every aggregate, and the invariant is kept |
| DrawingModel.Pop | ARtist/Model/DrawingModel.swift:87-95 | with no strokes or a zero count it returns nil; otherwise it removes the last stroke and undoes push's bookkeeping, keeping the invariant |
| DrawingModel.Clear | ARtist/Model/DrawingModel.swift:98-105 | the old strokes are returned and every aggregate is reset, so the invariant holds afterwards |
| DrawingModel.GetAtIndex | ARtist/Model/DrawingModel.swift:108-113 | returns a stroke exactly when 0 <= index < count, and that stroke is the one at the index |
| DrawingModel.GetAfterPush | ARtist/Model/DrawingModel.swift:66-113 | in a valid drawing, the pushed stroke is read back at the old count's index and every earlier index reads the same stroke as before |
| DrawingModel.ColorCount | ARtist/Model/DrawingModel.swift:126-128 | the number of colours that have an entry in the colour map; its meaning is given by the three lemmas below |
| DrawingModel.UsesAppend | ARtist/Model/DrawingModel.swift:47-72 | a colour's use count over two stroke lists joined together is the sum of its counts over each |
| DrawingModel.TotalLengthAppend | ARtist/Model/DrawingModel.swift:66-72 | the total length of two stroke lists joined together is the sum of their total lengths |
| DrawingModel.RemovePreservesValid | ARtist/Model/DrawingModel.swift:75-95 | taking any one stroke out of the list and out of the aggregates keeps the invariant |
| DrawingModel.UsesPositive | ARtist/Model/DrawingModel.swift:47-63 | a colour's use count is positive if and only if some stroke is drawn in that colour |
| DrawingModel.ColorCountIsDistinctColors | ARtist/Model/DrawingModel.swift:126-128 | in a valid drawing the colour count equals the number of distinct colours the strokes use |
| DrawingModel.ColorCountZeroIffEmpty | ARtist/Model/DrawingModel.swift:126-128 | in a valid drawing the colour count is 0 exactly when no stroke is drawn |
| DrawingModel.ColorCountAfterPush | ARtist/Model/DrawingModel.swift:47-72 | pushing a stroke raises the colour count by one exactly when its colour is not yet in the map, and otherwise leaves it unchanged |
| DrawingModel.PushPop | ARtist/Model/DrawingModel.swift:66-95 | push then pop returns the pushed stroke and restores the drawing exactly, including the colour map |
| DrawingModel.RunPreservesValid | ARtist/Model/DrawingModel.swift:66-105 | any sequence of push, pop, remove-at-index and clear keeps the aggregates equal to the values recomputed from the strokes |
| SaveModel.New | ARtist/Model/SaveModel.swift:35-43 | a new save has the given contents, both the last and the original save date set to the given date, and no overwrites |
| SaveModel.Overwrite | ARtist/Model/SaveModel.swift:70-79 | the contents and the last save date are replaced, the overwrite count goes up by one, the file name is kept, and the original date is filled in only while it is missing |
| SaveModel.AppendScreenshot | ARtist/Model/SaveModel.swift:82-84 | the screenshot is added at the end and nothing else changes |
| SaveModel.OverwriteWithoutDate | ARtist/Model/SaveModel.swift:70-79 | overwriting with no date clears the last save date but keeps the original one |
| SaveModel.RunKeepsIdentity | ARtist/Model/SaveModel.swift:70-84 | over any sequence of overwrites and appends the file name stays the same, the overwrite count grows by the number of overwrites, and an original date that is set stays |
| StorageModel.Empty | ARtist/Model/StorageModel.swift:19-22 | a new storage has no saves and a zero counter |
| StorageModel.IndexOfName | ARtist/Model/StorageModel.swift:39-58 | returns the first index whose save has the name, and returns none exactly when no save has it |
| StorageModel.GetWithFileName | ARtist/Model/StorageModel.swift:96-103 | returns nil exactly when no save has the name; otherwise returns the first save that has it |
| StorageModel.SaveTo | ARtist/Model/StorageModel.swift:39-48 | a save under a new name is appended and counted; a save under a name already stored overwrites the first such entry in place, and the list length and counter stay the same |
| StorageModel.SaveKeepsNamesDistinct | ARtist/Model/StorageModel.swift:39-48 | saving keeps the file names pairwise distinct |
| StorageModel.SaveAllDistinct | ARtist/Model/StorageModel.swift:39-48 | any sequence of saves keeps the file names pairwise distinct |
| StorageModel.RemoveAtIndex | ARtist/Model/StorageModel.swift:61-68 | with a zero counter it returns nil; otherwise it removes exactly save i and decrements the counter |
| StorageModel.Remove | ARtist/Model/StorageModel.swift:51-58 | corrected: removes the first save with the same file name when the counter allows it, and returns nil without changing anything when no save has that name |
| StorageModel.RemoveScan | ARtist/Model/StorageModel.swift:51-58 | the scan as written runs off the end exactly when no save has the name, and it does so at index count; otherwise it agrees with the corrected removal |
| StorageModel.RemoveAsWritten | ARtist/Model/StorageModel.swift:51-58 | as written: reads out of range exactly when no save has the name; otherwise it agrees with the corrected removal |
| StorageModel.RemoveAsWrittenFromEmpty | ARtist/Model/StorageModel.swift:51-58 | on an empty storage the code as written reads index 0 of an empty list, while the corrected removal returns nil |
| StorageModel.Pop | ARtist/Model/StorageModel.swift:71-78 | with a positive counter, the last save is removed and returned, and the counter is decremented even when the list is empty |
| StorageModel.Clear | ARtist/Model/StorageModel.swift:81-85 | the saves are returned and the list is emptied, but the counter is left unchanged |
| StorageModel.GetAtIndex | ARtist/Model/StorageModel.swift:88-93 | returns a save exactly when the index is below the counter, and that save is the one at the index |
| StorageModel.GetAfterSave | ARtist/Model/StorageModel.swift:39-103 | after a save, looking up its file name finds an entry with that name, which is the new save itself when the name was new; with an exact counter, the new save is read back at the old counter's index |
| StorageModel.RunKeepsCountCovering | ARtist/Model/StorageModel.swift:39-85 | under any sequence of storage operations the counter never falls below the list length |
| StorageModel.ClearLeavesStaleGuard | ARtist/Model/StorageModel.swift:81-93 | after one save and a clear, the get-at-index guard admits index 0 of an empty list |
| QueueProvider.New | ARtist/Providers/Queue/QueueProvider.swift:17-21 | a new queue is running and balanced |
| QueueProvider.Suspend | ARtist/Providers/Queue/QueueProvider.swift:23-28 | afterwards the queue is suspended; an already suspended queue is untouched; otherwise exactly one suspend call is added, the name and resume calls are kept, and the calls stay balanced |
| QueueProvider.Resume | ARtist/Providers/Queue/QueueProvider.swift:30-35 | afterwards the queue is running; a running queue is untouched; otherwise exactly one resume call is added, the name and suspend calls are kept, and the calls stay balanced |
| QueueProvider.Idempotent | ARtist/Providers/Queue/QueueProvider.swift:23-35 | suspending twice is the same as suspending once, and resuming twice the same as resuming once |
| QueueProvider.Execute | ARtist/Providers/Queue/QueueProvider.swift:37-53 | the action runs exactly when the queue is not suspended, and the block re-enqueues itself exactly when it ran and iteration was requested |
| QueueProvider.ExecuteFollowsLastCall | ARtist/Providers/Queue/QueueProvider.swift:23-53 | after any non-empty sequence of suspend and resume calls, the next block runs its action exactly when the last call was resume, and re-enqueues exactly when it also iterates |
| QueueProvider.RunBalanced | ARtist/Providers/Queue/QueueProvider.swift:17-35 | any sequence of suspend and resume calls keeps the dispatch queue's suspends and resumes balanced, so it is never resumed more often than suspended |
| CanvasProvider.New | ARtist/Providers/Canvas/CanvasProvider.swift:24-30 | a new canvas can neither undo nor redo |
| CanvasProvider.CanUndo | ARtist/Providers/Canvas/CanvasProvider.swift:233-235 | undo is possible exactly when `undoNode()` would hand back a node |
| CanvasProvider.CanRedo | ARtist/Providers/Canvas/CanvasProvider.swift:237-239 | redo is possible exactly when the undo list holds a batch (see UndoEnablesRedo) |
| CanvasProvider.ScreenCoordinates | ARtist/Providers/Canvas/CanvasProvider.swift:36-45 | with a camera frame, the direction is the negated third row of the camera transform and the position is its fourth row; without a frame, both are the fixed fallbacks |
| CanvasProvider.WorldCoordinates | ARtist/Providers/Canvas/CanvasProvider.swift:63-71 | the point lies worldOffset along the camera direction from the camera position; without a frame it is (0, 0, -0.2 - worldOffset) |
| CanvasProvider.FallbackIsUnrotatedCamera | ARtist/Providers/Canvas/CanvasProvider.swift:36-45 | the fallback direction and position are what an unrotated camera at (0, 0, -0.2) reports |
| CanvasProvider.CameraTranslationMovesPoint | ARtist/Providers/Canvas/CanvasProvider.swift:36-71 | moving the camera without turning it keeps the direction and moves the projected point by the same vector |
| CanvasProvider.DrawThickLine | ARtist/Providers/Canvas/CanvasProvider.swift:104-181 | a zero distance gives a brush-sized sphere at `from`; otherwise a brush-sized cylinder as tall as the distance, at the midpoint; the new node is attached and appended; identities stay fresh and the draw list distinct |
| CanvasProvider.DegenerateSegmentIsSphere | ARtist/Providers/Canvas/CanvasProvider.swift:110-119 | a segment from a point to itself is a sphere at that point |
| CanvasProvider.UndoNode | ARtist/Providers/Canvas/CanvasProvider.swift:200-207 | pops the last drawn node and detaches it from the scene, or returns nil when nothing is drawn |
| CanvasProvider.UndoLoopStep | ARtist/Providers/Canvas/CanvasProvider.swift:200-218 | one `undoNode()` followed by n - 1 more takes off the last node and then the next n - 1 from the end, and detaches exactly the nodes it collects |
| CanvasProvider.UndoLoop | ARtist/Providers/Canvas/CanvasProvider.swift:213-218 | n calls of `undoNode()` remove the last min(n, count) drawn nodes, last first, and detach exactly those nodes; the undo list is unchanged |
| CanvasProvider.Undo | ARtist/Providers/Canvas/CanvasProvider.swift:209-221 | removes the last min(specificity + 1, count) drawn nodes, last first, detaches them, and appends that batch to the undo list even when it is empty; the offset and the next identity are kept |
| CanvasProvider.Redo | ARtist/Providers/Canvas/CanvasProvider.swift:223-231 | pops the last undo batch, or returns nil when there is none, and re-attaches its nodes to the scene; the draw list, the offset and the next identity are kept |
| CanvasProvider.UndoKeepsAttached | ARtist/Providers/Canvas/CanvasProvider.swift:200-221 | after undo, every node still in the draw list is still attached to the scene |
| CanvasProvider.UndoEnablesRedo | ARtist/Providers/Canvas/CanvasProvider.swift:209-239 | `canRedo()` holds exactly when redo returns a batch, and after any undo redo is possible, because even an empty batch is recorded |
| CanvasProvider.UndoThenRedo | ARtist/Providers/Canvas/CanvasProvider.swift:209-231 | redo right after undo returns the same batch and restores the scene, the undo list, the offset and the next identity, but the draw list stays short by that batch |
| CanvasProvider.UndoZeroTakesLast | ARtist/Providers/Canvas/CanvasProvider.swift:209-221 | undo with specificity 0 removes exactly the last drawn node |
| CanvasProvider.DrawThenUndo | ARtist/Providers/Canvas/CanvasProvider.swift:104-221 | drawing a segment and then undoing with specificity 0 removes exactly that segment's node and restores the draw list and scene |
| CanvasProvider.UndoKeepsWellFormed | ARtist/Providers/Canvas/CanvasProvider.swift:200-221 | undo keeps drawn nodes attached and distinct and every identity below the next one |
| CanvasProvider.RedoKeepsWellFormed | ARtist/Providers/Canvas/CanvasProvider.swift:223-231 | redo keeps drawn nodes attached and distinct and every identity below the next one, since it only re-attaches nodes the undo list holds |
| CanvasProvider.RunKeepsWellFormed | ARtist/Providers/Canvas/CanvasProvider.swift:104-231 | any sequence of draws, undos and redos keeps drawn nodes attached and distinct and every identity fresh |
| CanvasProvider.NewIsWellFormed | ARtist/Providers/Canvas/CanvasProvider.swift:24-231 | a new canvas, and every canvas reached from it by draws, undos and redos, satisfies that invariant |
| ViewController.ResumeUpdateQueue | ARtist/Controller/ViewController.swift:252-257 | the flag is cleared, the dispatch queue is resumed only if it was suspended, and the calls stay balanced |
| ViewController.SuspendUpdateQueue | ARtist/Controller/ViewController.swift:260-265 | the flag is set, the dispatch queue is suspended only if it was running, and the calls stay balanced |
| ViewController.FlagAgreesWithQueueProvider | ARtist/Controller/ViewController.swift:252-265 | the controller's flag handling is the same state machine as QueueProvider's suspend and resume |
| ViewController.HandleTap | ARtist/Controller/ViewController.swift:201-217 | the projected point always becomes the anchor, and a segment from the old anchor is drawn only when both a brush and an anchor exist |
| ViewController.TouchesBegan | ARtist/Controller/ViewController.swift:177-190 | touching down resumes the sampler and leaves the anchor and the canvas unchanged |
| ViewController.TouchesEnded | ARtist/Controller/ViewController.swift:192-198 | lifting the finger forgets the anchor and suspends the sampler |
| ViewController.SampleDrawsOneFewer | ARtist/Controller/ViewController.swift:201-217 | starting without an anchor, k samples with a brush draw k - 1 segments, and samples without a brush draw none |
| ViewController.GestureSegments | ARtist/Controller/ViewController.swift:177-217 | a whole gesture of k samples draws at most k - 1 segments (exactly k - 1 with a brush) and ends with no anchor and the sampler suspended |
| ViewController.DisplayOperations | ARtist/Controller/ViewController.swift:271-274 | the undo button is hidden exactly when nothing is drawn, and the redo button exactly when there is nothing to redo |
| ViewController.UndoButtonPressed | ARtist/Controller/ViewController.swift:276-280 | when undo is possible, the canvas becomes the result of undo with specificity 10: up to 11 nodes come off the end of the draw list, last first, are detached, and are recorded as one new batch; otherwise nothing changes; the rest of the controller is kept |
| ViewController.RedoButtonPressed | ARtist/Controller/ViewController.swift:282-286 | when redo is possible, the canvas becomes the result of redo: the last batch comes off the undo list and its nodes are re-attached; the draw list and the rest of the controller never change |
| ViewController.UndoThenRedoButtons | ARtist/Controller/ViewController.swift:276-286 | the redo button right after the undo button restores the scene and the undo list, leaves the draw list short by the batch, and touches nothing else in the controller |
| ViewController.UndoButtonShowsRedo | ARtist/Controller/ViewController.swift:271-280 | after the undo button acts, the redo button would show; with at most 11 nodes drawn, the undo button would hide |
| SizeSliderView.Trunc | ARtist/View/XIBs/SizeSliderView/SizeSliderView.swift:119 | Swift's `Int(x)` truncates toward zero |
| SizeSliderView.New | ARtist/View/XIBs/SizeSliderView/SizeSliderView.swift:35-41 | a new slider has maximum 100, minimum 1 and current value 50, which lies between them |
| SizeSliderView.SetCurrentValue | ARtist/View/XIBs/SizeSliderView/SizeSliderView.swift:41-47 | setting the value notifies the delegate, when there is one, of exactly the new value |
| SizeSliderView.TopConstraint | ARtist/View/XIBs/SizeSliderView/SizeSliderView.swift:111 | dragging down moves the bubble to where the drag ends, or stops it at half a bubble above the bottom, whichever comes first, so it never passes the drag's end; dragging up does the same towards half a bubble above the top |
| SizeSliderView.TopConstraintStaysOnTrack | ARtist/View/XIBs/SizeSliderView/SizeSliderView.swift:111 | a bubble that starts on its track, from half a bubble above the top to half a bubble above the bottom, stays on it, and a drag ending on the track is followed exactly |
| SizeSliderView.ValueAt | ARtist/View/XIBs/SizeSliderView/SizeSliderView.swift:118-119 | a bubble centred at the top gives the maximum, and a bubble at or below the top never gives more than the maximum |
| SizeSliderView.ValueInRange | ARtist/View/XIBs/SizeSliderView/SizeSliderView.swift:118-121 | a bubble centred inside the slider gives a value between the minimum and the maximum, and the very top gives the maximum |
| SizeSliderView.ValueFallsAsBubbleDescends | ARtist/View/XIBs/SizeSliderView/SizeSliderView.swift:118-119 | moving the bubble lower never raises the value |
| SizeSliderView.DidDragSlider | ARtist/View/XIBs/SizeSliderView/SizeSliderView.swift:83-123 | a drag changes only the bubble constraint, the current value and the notifications: the constraint is the clamped drag, the value is the one for the bubble centre and lies within range, and the delegate, only when there is one, is told that value |
| BrushSizeSliderProvider.New | ARtist/Providers/Sliders/BrushSizeSliderProvider.swift:29-71 | the frame is centred horizontally on the given position and the fraction starts at one half |
| BrushSizeSliderProvider.ChangeSliderSize | ARtist/Providers/Sliders/BrushSizeSliderProvider.swift:73-77 | the cursor radius is fraction times the maximum size, the brush size is that radius over 10000, and colour and opacity are kept |
| BrushSizeSliderProvider.SizeBounded | ARtist/Providers/Sliders/BrushSizeSliderProvider.swift:73-77 | for a fraction in [0, 1] the brush size stays within [0, maximum / 10000] |
| ColorSliderProvider.SliderPosition | ARtist/Providers/Sliders/ColorSliderProvider.swift:45 | the slider is moved inward by the padding: leftwards when it is right of the canvas centre, rightwards otherwise |
| ColorSliderProvider.SliderMovesInward | ARtist/Providers/Sliders/ColorSliderProvider.swift:45 | with a non-negative padding the slider moves exactly the padding, towards the canvas centre when it is off-centre |
| ColorSliderProvider.TextColorAsWritten | ARtist/Providers/Sliders/ColorSliderProvider.swift:80-91 | as written: an opaque grey, level 0 when `1 - luminance / 255` is below one half and 255 otherwise |
| ColorSliderProvider.TextColorOfUnitColor | ARtist/Providers/Sliders/ColorSliderProvider.swift:80-91 | as written, every background with components in [0, 1] gets the 255 grey |
| ColorSliderProvider.TextColorBasedOnBackground | ARtist/Providers/Sliders/ColorSliderProvider.swift:80-91 | corrected: an opaque grey, level 0 when `1 - luminance` is below one half and 255 otherwise |
| ColorSliderProvider.TextColorMatchesIsLightColor | ARtist/Providers/Sliders/ColorSliderProvider.swift:80-91 | the text is the 255 grey exactly when `isLightColor` holds for the background, both as written and corrected |
| ColorSliderProvider.TextColorContrasts | ARtist/Providers/Sliders/ColorSliderProvider.swift:80-91 | corrected, black gets the 255 grey and white the 0 grey; as written, white also gets the 255 grey |
| ColorSliderProvider.ChangeSliderColor | ARtist/Providers/Sliders/ColorSliderProvider.swift:73-78 | as written: the brush, the cursor and the size slider all take the picked colour, the brush keeps its size and opacity, and the slider's value text comes from the overlay text rule as written |
| ColorSliderProvider.ValueTextOfUnitColor | ARtist/Providers/Sliders/ColorSliderProvider.swift:73-91 | as written, picking any colour with components in [0, 1] gives the 255 grey value text |
| ColorSliderProvider.ChangeSliderColorCorrected | ARtist/Providers/Sliders/ColorSliderProvider.swift:73-91 | corrected: the same brush, cursor and fill colours as the code as written, with the value text from the corrected overlay text rule |
| ColorSliderProvider.CorrectedValueTextContrasts | ARtist/Providers/Sliders/ColorSliderProvider.swift:73-91 | corrected, picking white gives the 0 grey value text and picking black the 255 grey |
| ColorSliderProvider.LastPickWins | ARtist/Providers/Sliders/ColorSliderProvider.swift:73-78 | picking two colours in a row is the same as picking only the second, and picking the brush's own colour keeps the brush |
| ColorSliderProvider.ColorAndSizeCommute | ARtist/Providers/Sliders/ColorSliderProvider.swift:73-78 | picking a colour and changing the size give the same brush in either order |
| Colors.DarknessOfUnitColor | ARtist/Extensions.swift:401-403 | for components in [0, 1] the darkness as written (`1 - luminance / 255`) is never below one half |
| Extensions.IsLightColorAsWritten | ARtist/Extensions.swift:401-403 | as written: a colour counts as light exactly when its luminance is at most 127.5 |
| Extensions.IsLightColor | ARtist/Extensions.swift:401-403 | corrected: a colour counts as light exactly when its luminance is at most one half, so the predicate in fact picks the dim colours |
| Extensions.UnitColorsAreLight | ARtist/Extensions.swift:401-403 | as written, every colour with components in [0, 1] counts as light, white included |
| Extensions.IsLightColorSeparates | ARtist/Extensions.swift:401-403 | corrected, black counts as light and white does not; as written, white counts too |
| Extensions.IsLightColorDownwardClosed | ARtist/Extensions.swift:401-403 | corrected, a colour no brighter in any component than a light colour is itself light |
| Extensions.Adjust | ARtist/Extensions.swift:421-431 | nil exactly when the RGB components cannot be read; otherwise each component moves by percentage / 100, capped at 1 from above but not from below, and alpha is kept |
| Extensions.Lighter | ARtist/Extensions.swift:411-413 | nil exactly when the components cannot be read; otherwise alpha is kept and no component at most 1 goes down or rises above 1 |
| Extensions.Darker | ARtist/Extensions.swift:416-418 | nil exactly when the components cannot be read; otherwise alpha is kept and no component goes up |
| Extensions.LighterStaysInUnitRange | ARtist/Extensions.swift:411-413 | lightening a colour with components in [0, 1] keeps them in [0, 1] and never lowers any of them |
| Extensions.DarkerIsNotFloored | ARtist/Extensions.swift:416-418 | darkening black by the default 30 gives components of -0.3, since there is no clamp from below |
| Extensions.GetHighlightedAsWritten | ARtist/Extensions.swift:401-408 | as written: a colour that `isLightColor` (on the 0...255 scale) accepts is lightened, any other is darkened, and a colour whose adjustment fails is returned unchanged |
| Extensions.HighlightOfUnitColorLightens | ARtist/Extensions.swift:401-418 | as written, every colour with components in [0, 1] is highlighted by lightening, white included |
| Extensions.GetHighlighted | ARtist/Extensions.swift:406-408 | corrected: a light colour is lightened, any other is darkened, and a colour whose adjustment fails is returned unchanged |
| Extensions.HighlightMovesTowardMiddle | ARtist/Extensions.swift:401-431 | corrected, black highlights to a 0.3 grey and white to a 0.7 grey; as written, white stays white |
| Extensions.Breadth | ARtist/Extensions.swift:39 | the breadth is the shorter side |
| Extensions.IsPortrait | ARtist/Extensions.swift:37 | in a portrait image the breadth is the width, which is shorter than the height |
| Extensions.IsLandscape | ARtist/Extensions.swift:38 | in a landscape image the breadth is the height, which is shorter than the width |
| Extensions.OrientationsExclusive | ARtist/Extensions.swift:37-38 | an image is never both portrait and landscape, and an image that is not square is one of them |
| Extensions.CropOrigin | ARtist/Extensions.swift:45 | the crop is offset by the floored half-difference along the longer side, and a square image is not offset |
| Extensions.CropInsideImage | ARtist/Extensions.swift:39-45 | the square crop of side breadth lies inside the image |
| Extensions.ResizeTo | ARtist/Extensions.swift:84-95 | the resized image fits inside the rectangle, fills it along one side, and keeps the aspect ratio |
| Extensions.ToMeters | ARtist/Extensions.swift:335-340 | points converted through points-per-centimetre give metres, and the result is 0 when the screen density is unknown |
| Extensions.Unique | ARtist/Extensions.swift:325-327 | the result holds exactly the elements of the input, each once |
| Geometry.Midpoint | ARtist/Providers/Canvas/CanvasProvider.swift:170-172 | the cylinder's centre is as far from one end as the other end is from it |

## Left out

- CanvasController, the file browser and every other screen: they are outside the drawing core.
- CanvasProvider.drawThickLine's rotation: the quaternion-derived rotation block of the cylinder transform (m11 to m33) is not modelled. Only the shape and the translation are.
- The SCNVector3Distance helper is not part of this model. The distance is a parameter `dist`.
- CanvasProvider `draw`, `drawLine` and `materialFromBrush`: these are older drawing paths or pure SceneKit material setup, and no modelled operation calls them.
- StrokeModel's `parent` and `unparent`: these operate on the SceneKit node hierarchy, which this model does not represent.
- Concurrency: the dispatch queue's threads, `usleep`, and the self-rescheduling of `defineUpdateQueue` and `execute`. One executed block is modelled as a step.
- CanvasProvider.WorldCoordinates: the source queries the camera frame twice per call. The model assumes both queries see the same frame.
- CanvasProvider.ScreenCoordinates: the screen point parameter is ignored by the source, so the model has no such parameter.
- NSCoding archives of DrawingModel, StrokeModel, SaveModel and StorageModel: this is I/O. Only BrushModel's encode/decode pair is modelled, as keyed fields.
- StorageProvider and SaveProvider (the files on disk) are not part of this model.
- User interface: the view hierarchy, animations, haptics, tooltips and cursor drawing. This includes the cursor reposition in `touchesBegan` and `resizeCursor` in `changeSliderSize`, which are modelled only as the radius value.
- Date formatting, `timeAgo` and the Data and String helpers in Extensions.swift: these are formatting only.
- Floating-point rounding and 32/64-bit integer overflow: all arithmetic is exact. The counters cannot realistically overflow.
- Colors.Color: colour equality compares the four components and the extractable flag only. UIColor equality also compares the colour space, and the app creates its palette in Display P3. So two colours with equal components in different colour spaces are one key of the drawing's colour map here, but two keys in the source, and the colour count could differ.
- BrushModel: brushes are shared by reference in the source (a slider changes the live brush), but the model passes them by value. Each change is returned as a new brush. A stroke in the source holds the live brush, so recolouring it after `push(stroke:)` leaves DrawingModel's colour map keyed by the old colour. The model cannot reach that stale state, so its invariant that each map entry counts the strokes of that colour says nothing about it.
- SaveModel's archive decoding uses forced casts, which crash on a malformed archive. Decoding saves is not modelled.
- Extensions.ResizeTo: requires positive image sides and a non-negative rectangle, because the source divides by the image sides and never sees an empty image. Drawing the image into the new context is not modelled.
- Extensions.ToMeters: requires a non-zero density when one is given, because the source divides by it.
- Extensions.Unique: keeps first occurrences in order. The source's `Array(Set(self))` has an unspecified order, so the contract promises only the element set and the absence of duplicates.
- SizeSliderView.DidDragSlider: the bubble centre is read from the view before layout. The model takes it as a parameter instead of deriving it from the new constraint.
- SizeSliderView `updateBubblePosition`: its only effect is commented out in the source.
- BrushSizeSliderProvider and BrushModel use different scales, 10000 and 5200. Both are kept as written.
- CanvasProvider.Undo: the loop runs `remove + 1` times, so the undo button removes up to 11 nodes for a specificity of 10. This is modelled as written; no fix is claimed, because the intended count is not evident.

## Findings

| source | as written | input that shows it | evidently intended | confidence | as-written member | corrected member |
|---|---|---|---|---|---|---|
| ARtist/Model/StorageModel.swift:51-58 | the search loop runs over `0...saves.count`, one index past the end of the list | an empty storage, or any storage in which no save has the file name: the loop reads `saves[saves.count]` and traps | the search is bounded by `0..<saves.count` and returns nil when there is no match | high (not executed) | StorageModel.RemoveAsWritten (with StorageModel.RemoveAsWrittenFromEmpty) | StorageModel.Remove |
| ARtist/Extensions.swift:401-403 and ARtist/Providers/Sliders/ColorSliderProvider.swift:80-91 | the darkness is `1 - luminance / 255`, but the components come from CoreImage and lie in [0, 1], so the darkness is never below one half | white: `isLightColor` holds, so `getHighlighted` lightens white to white, and the overlay text on a white background is the 255 grey | the luminance taken on the components' own scale, `1 - luminance`, so that bright colours are darkened and get dark text | medium (not executed) | Extensions.IsLightColorAsWritten, Extensions.GetHighlightedAsWritten, ColorSliderProvider.TextColorAsWritten, ColorSliderProvider.ChangeSliderColor (with Extensions.UnitColorsAreLight, Extensions.HighlightOfUnitColorLightens, ColorSliderProvider.TextColorOfUnitColor, ColorSliderProvider.ValueTextOfUnitColor) | Extensions.IsLightColor, Extensions.GetHighlighted, ColorSliderProvider.TextColorBasedOnBackground, ColorSliderProvider.ChangeSliderColorCorrected (with Extensions.IsLightColorSeparates, Extensions.HighlightMovesTowardMiddle, ColorSliderProvider.TextColorContrasts, ColorSliderProvider.CorrectedValueTextContrasts) |
