# Gesture recogniser state machine (unitouch `gestures.js`)

This project models the multi-touch gesture recogniser of `gestures.js` and proves properties
of the model. The recogniser watches normalised pointer events and decides which gesture
(tap, swipe, rotate, palm, pinch, scratch, stretch) the current interaction is, plus the swipe
direction. Its state is a handful of module variables that every event handler reassigns. The
model makes them the fields of one class, `Touch.Gestures`:
- `pointers`, a map from id to pointer record;
- `keys`, the insertion-ordered active ids;
- `rotation`, `scale`, `swipeX`, `swipeY`;
- `recognized`, `detectedGesture`, `detectedSwipe`;
- `gestureTime`, `initialTime`.

The model has four modules:
- `Registry` (registry.dfy): the pointer record and `updateTouchPoint`'s effect on one record (`Moved`). It also has the
  array builtins that removal relies on (`IndexOf` for `indexOf`, `Splice` for `splice(i, 1)`),
  the registry invariant `RegistryValid` and the lemmas about removal.
- `Session` (session.dfy): the session variables as a value `State`. It defines `resetGesture`, the tap signal, the
  swipe detector and the three steps of `detectGesture` (timer, rotation/scale update,
  classification) as functions, plus the lemmas that state what these rules promise.
- `Touch` (gestures.dfy): the class. Its methods update the fields in place, as the source does, with the
  source's loops (`removeAllTouchPoints`, the min-distance scan). Each method's postcondition
  ties the new state to the matching `Registry`/`Session` function of the old state. Two client
  methods (`SwipeScenario`, `RemovalScenario`) show what callers can derive from those contracts.
- `Wrappers` (wrappers.dfy): `Option`.

Model choices:
- The clock is the `now` parameter of `DetectGesture`.
- The platform's rotation reaches `DetectGesture` already in degrees.
- `Math.sqrt` is a parameter of type `Sqrt`: any function that is non-negative on non-negative arguments.
- JavaScript numbers are modelled as mathematical reals, and `Math.abs` as `Session.Abs`.
- `init` never sets `initialTime`. Until the first `detectGesture` call that finds no gesture, the source computes
  `gestureTime` as `NaN`. Both are the `Time.Undefined` value, and `NaN > 1000` is false there, as in
  JavaScript.

The registry keeps these invariants (`Registry.RegistryValid`):
- no key occurs twice;
- every key has a record;
- every record is filed under its own id;
- total distances are non-negative.

It does not promise that every record has a key. Removing an unknown id makes `indexOf` return
-1, so `splice(-1, 1)` drops the last key and leaves that key's record behind. From then on,
`addTouchPoint` refuses that id.

The session keeps these invariants (`Session.Consistent`):
- a recognised session names a gesture;
- a swipe gesture is recognised and has a direction;
- the elapsed time never exceeds 1000 ms, because exceeding it resets.

Where the code does something its names and comments do not suggest, the model follows the code:
- Removing an unknown id, or the same id twice, is not a no-op: the last key is dropped (`Registry.RemoveTwiceDropsAnother`,
  `Touch.RemovalScenario`).
- The first update of a pointer only fixes its baseline, so a pointer created at (100, 100) and
  moved once to (100, 30) has zero deltas and does not swipe. A further move of 70 does
  (`Session.FirstMoveIsNoSwipe`).
- Five or more pointers do not always give palm: when every pointer has moved at least 20 and the
  rotation or scale rule fires, rotate, stretch or pinch replaces palm (`Session.PalmPriority`,
  `Session.PalmOverwritten`).
- With no pointers at all, the min-distance condition holds vacuously, so rotation or scale alone
  commits a gesture (`Session.ZeroPointersClassify`).
- A timeout resets the session in the middle of `detectGesture`. The same call then applies this
  event's rotation and scale and may classify again, so the gesture need not be none afterwards
  (`Session.TimeoutRestarts`).
- Deltas are previous minus current. From the third update on, the previous position is the one
  held before the last update, so a delta spans two moves (`Registry.DeltaSpansTwoMoves`).

## Model

| member | source | states |
|---|---|---|
| Registry.Moved | gestures.js:557-580 | an update keeps the id and moves the position to (x, y). With a baseline, the deltas become baseline minus (x, y), the distance is non-negative and is added to the total, and the baseline moves to the position held before. Without one, the baseline becomes (x, y) and deltas, distance and total are kept |
| Registry.NewPointer | gestures.js:537-546 | a new record has the given id and position, no baseline yet, and zero deltas, distance and total |
| Registry.SquaredLength | gestures.js:567 | the argument given to `Math.sqrt` is never negative |
| Registry.FirstUpdateIsBaseline | gestures.js:571-575 | a fresh pointer's first update leaves all motion fields at zero and puts the baseline at the new position |
| Registry.SecondUpdateIsOneMove | gestures.js:562-575 | the second update's delta is the position of the first update minus the new position |
| Registry.DeltaSpansTwoMoves | gestures.js:564-570 | once a baseline exists, a delta two updates later is measured from the position held before both updates, and the baseline becomes the position of the first of them |
| Registry.IndexOf | gestures.js:588 | `indexOf` gives -1 exactly when the id is absent, and otherwise the first position holding it |
| Registry.Splice | gestures.js:589 | `splice(i, 1)` cuts out position i when it is in range, drops the last element when i is -1, and keeps the list when i is past the end |
| Registry.RemovedKey | gestures.js:586-590 | removal cuts a present id out at its first position; an absent id drops the last key instead (nothing when there are no keys) |
| Registry.RemovedKeyKeepsOthers | gestures.js:586-590 | removal keeps the keys duplicate-free and never adds an id; a tracked id is removed along with nothing else |
| Registry.RemovePreservesRegistry | gestures.js:586-590 | removing any id, tracked or not, keeps every registry invariant |
| Registry.RemovedLastKey | gestures.js:395-399 | removing the last key of a duplicate-free list drops exactly that key, which is the step `removeAllTouchPoints` repeats |
| Registry.KeysFitRecords | gestures.js:532-551 | there are never more active ids than records |
| Registry.TotalDistances | gestures.js:506-510 | the list read by the scan holds one total distance per key, in key order |
| Registry.Finger | gestures.js:413-414 | the swipe finger exists exactly when one pointer is active, and it is that pointer's record |
| Registry.RemoveTwiceDropsAnother | gestures.js:586-590 | removing id 1 from [1, 2] twice leaves no keys at all: the second removal drops id 2 |
| Session.Reset | gestures.js:380-389 | a reset session satisfies the session invariant and keeps its start time |
| Session.ResetForgets | gestures.js:380-389 | two reset sessions are equal exactly when their start times are equal |
| Session.ResetIdempotent | gestures.js:380-389 | resetting twice is the same as resetting once |
| Session.Tapped | gestures.js:356-359 | the tap signal commits tap as recognised and keeps the session invariant |
| Session.SwipeDirection | gestures.js:419-443 | left (right) exactly when the horizontal accumulator exceeds 50, the latest motion is mostly horizontal and deltaX is positive (not positive); up/down likewise on the vertical axis |
| Session.Tracked | gestures.js:413-443 | the one-finger branch adds the finger's deltas to the accumulators and stores the direction rule's verdict; no direction clears the recognised flag, and nothing else changes |
| Session.SwipeStep | gestures.js:405-450 | a committed swipe leaves the session unchanged; rotation, scale and clock never change; without a single finger the accumulators and direction are kept; the invariant is preserved |
| Session.SwipeWithOneFinger | gestures.js:413-444 | with one pointer, its delta is added to the accumulators, and the gesture becomes swipe exactly when a direction is found; otherwise the session is unrecognised and its gesture unchanged |
| Session.SwipeWithoutOneFinger | gestures.js:446-449 | with zero or several pointers, a stored direction other than none still commits swipe |
| Session.SwipeSticky | gestures.js:407-410 | once swipe is committed, any number of further moves leave the whole session unchanged |
| Session.StartTime | gestures.js:460-462 | the start time is now when no gesture is set, and the stored start time otherwise |
| Session.Elapsed | gestures.js:464 | the elapsed time is now minus the start time; undefined when no start time was ever set; 0 when no gesture is set |
| Session.TimesOut | gestures.js:464-469 | a call times out exactly when a gesture is set, a start time exists and more than 1000 ms have passed since it |
| Session.Timed | gestures.js:458-469 | without a timeout, only the start time and the elapsed time change, to `StartTime` and `Elapsed`; with a timeout, the session is reset while keeping the new start time; the invariant is kept |
| Session.FreshSessionStartsClock | gestures.js:460-467 | with no gesture the clock restarts at now, the elapsed time is 0 and there is no timeout |
| Session.RelativeAccumulation | gestures.js:472-477 | relative mode adds up the rotation deltas above 0.1, multiplies up the scale factors and changes nothing else |
| Session.Accumulated | gestures.js:471-482 | relative mode adds the rotation delta when it exceeds 0.1 and multiplies the scale; absolute mode sets rotation and scale to the event's values; nothing else changes and the invariant is kept |
| Session.AbsoluteOverwrites | gestures.js:478-482 | absolute mode does not depend on the rotation and scale held before |
| Session.Classified | gestures.js:484-525 | classification changes only the recognised flag and the gesture, and keeps the invariant |
| Session.MotionVerdict | gestures.js:513-523 | the motion rule yields none, rotate, stretch or pinch |
| Session.ScratchIsAnchored | gestures.js:493-510 | a scratch always has an unmoved pointer, so the min-distance block cannot replace it |
| Session.ClassifiedIsVerdict | gestures.js:484-525 | a recognised session is kept. An unrecognised one commits exactly the reference verdict (motion first when every pointer moved, then palm, then scratch), or stays exactly as it was when there is none |
| Session.PalmPriority | gestures.js:486-523 | five or more pointers always commit, either palm or, when every pointer moved, the motion verdict |
| Session.PalmOverwritten | gestures.js:487-523 | five pointers that each moved 20, with 25 degrees of rotation, give rotate, not palm |
| Session.ScratchAsymmetry | gestures.js:493-510 | first pointer anchored and second dragged far gives scratch; the same distances in the other key order commit nothing |
| Session.RotationBeforeScale | gestures.js:513-523 | with every pointer moved, rotation at or above 20 wins over a scale change above 0.3 |
| Session.ZeroPointersClassify | gestures.js:504-523 | with no pointers, a rotation or scale above threshold still commits the motion verdict |
| Session.GestureStep | gestures.js:456-526 | a gesture event keeps the session invariant and either keeps the swipe direction or clears it by a reset |
| Session.RecognizedIsSticky | gestures.js:460-484 | a recognised session that does not time out keeps its gesture and swipe direction |
| Session.TimeoutRestarts | gestures.js:464-482 | a timeout happens only with a gesture set. The call then continues from a reset session that keeps only the start time, with this event's rotation and scale applied to the defaults |
| Session.StillFingerNoSwipe | gestures.js:413-443 | a finger with zero deltas leaves a fresh session exactly as it was |
| Session.SeventyUpIsSwipe | gestures.js:422-449 | from rest, a delta of 70 on y with none on x is a swipe up |
| Session.FirstMoveIsNoSwipe | gestures.js:571-575 | a pointer created at (100, 100) and moved to (100, 30) does not swipe; moving it on to (100, -40) swipes up |
| Touch.Gestures.constructor | gestures.js:82-94 | an empty registry and a reset session with no start time |
| Touch.Gestures.ResetGesture | gestures.js:380-389 | the session becomes `Reset` of the old one; the registry is untouched |
| Touch.Gestures.OnGestureTap | gestures.js:356-359 | only the recognised flag and the gesture change, to true and tap |
| Touch.Gestures.AddTouchPoint | gestures.js:532-551 | an id in neither the keys nor the records is appended, gets a fresh record, and that record is returned; otherwise keys and records are unchanged and nothing is returned |
| Touch.Gestures.UpdateTouchPoint | gestures.js:557-580 | an unknown id changes nothing; a known record becomes `Moved` of itself; the keys and session do not change |
| Touch.Gestures.RemoveTouchPoint | gestures.js:586-590 | the record of the id is deleted whether or not it had a key, the keys become `RemovedKey`, and the invariants hold |
| Touch.Gestures.RemoveAllTouchPoints | gestures.js:395-399 | no keys remain, the records of exactly the old keys are deleted, and records without a key survive |
| Touch.Gestures.DetectSwipe | gestures.js:405-450 | the session becomes `SwipeStep` of the old one with the sole pointer, if there is one; the registry is untouched |
| Touch.Gestures.MinDistanceMet | gestures.js:504-510 | the scan answers true exactly when every active pointer's total distance is at least 20 |
| Touch.Gestures.DetectGesture | gestures.js:456-526 | the session becomes `GestureStep` of the old one with this event and the total distances in key order; the registry is untouched |
| Touch.Gestures.UpdateTimer | gestures.js:458-469 | the session becomes `Timed` of the old one |
| Touch.Gestures.ApplyDeltas | gestures.js:471-482 | the session becomes `Accumulated` of the old one |
| Touch.Gestures.Classify | gestures.js:484-525 | the session becomes `Classified` of the old one over the total distances in key order |
| Touch.Gestures.GetNumTouchPoints | gestures.js:624-626 | the number of active ids, which never exceeds the number of records |
| Touch.Gestures.GetTouchPoint | gestures.js:628-630 | a record exactly when the index is in range, namely the record of the key at that index |
| Touch.Gestures.GetRotation | gestures.js:632-634 | the accumulated rotation (an accessor) |
| Touch.Gestures.GetScale | gestures.js:636-638 | the accumulated scale (an accessor) |
| Touch.Gestures.GetGesture | gestures.js:640-642 | the detected gesture, which is never none while the session is recognised and is swipe only with a direction |
| Touch.Gestures.GetSwipe | gestures.js:644-646 | the detected direction, which is not none whenever the gesture is swipe |
| Touch.Gestures.GetGestureTime | gestures.js:648-650 | the stored elapsed time, which is never more than 1000 ms |

## Left out

- Platform detection, adding and removing event listeners, and the iOS, MS pointer and mouse adapters (gestures.js:100-303, 309-354): browser event plumbing. The model starts where they call the core.
  - This includes the adapters' own quirks: the y coordinate taken from `clientX` (gestures.js:236), the shadowed `event` (gestures.js:199), the mouse id counter, and the inertia filter of `onMSGestureChange`.
- `onMSInertiaStart` and `msGestureHold` (gestures.js:339-374): DOM geometry and console output only.
- `getAbsolutePosition` and `preventDefault` (gestures.js:596-612): DOM walks and browser calls.
- The clock: `detectGesture` reads the clock twice (gestures.js:458, 461). The model takes one reading, `now`, so the two readings never differ by a millisecond.
- `Math.atan2` and the pointer's `angle` field: floating-point library calls that nothing in the core reads.
- The conversion of radians to degrees (gestures.js:474-475): relative-mode rotation is taken as degrees.
- Floating point: numbers are reals, so there is no rounding. `Math.sqrt` is any non-negative function, so the model never states a concrete distance.
- Object identity of pointer records: records are values in the map. The record that `addTouchPoint` returns is equal to the stored one and is not updated together with it afterwards.
- Key conversion: JavaScript turns object keys into strings. Ids are modelled as integers, which is what every adapter passes.
- `MAX_SWIPE_DISTANCE` and `VERSION`: declared and never read (`MaxSwipeDistance` is kept as a constant).
- touch-balls.js and touch-debug.js: a canvas demo and an on-screen display that only poll the getters.
