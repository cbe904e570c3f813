/**
 * The gesture session of the recogniser and its three decision procedures:
 * the swipe detector, the timer with rotation/scale accumulation, and the
 * priority-ordered multi-point classifier. Each is a function from the old
 * session (and the registry data it reads) to the new one.
 */
module Session {
  import opened Wrappers
  import opened Registry

  datatype Gesture = None | Tap | Swipe | Rotate | Palm | Pinch | Scratch | Stretch

  datatype Direction = None | Up | Left | Right | Down

  /** A millisecond value; `Undefined` is JavaScript's `undefined` and the `NaN` computed from it. */
  datatype Time = Undefined | Ms(value: int)

  const MinGestureRotation: real := 20.0
  const MinGestureScale: real := 0.3
  const MaxGestureTime: int := 1000
  const MinSwipeDistance: real := 50.0
  /** Declared by the source and never read. */
  const MaxSwipeDistance: real := 200.0
  const MinPalmPoints: nat := 5
  /** A pointer whose total distance is below this has not moved (scratch anchor, min-distance scan). */
  const AnchorDistance: real := 20.0
  /** The distance the dragging finger of a scratch must exceed. */
  const ScratchDistance: real := 300.0
  /** Relative rotation deltas of at most this many degrees are ignored. */
  const RotationJitter: real := 0.1

  function Abs(x: real): (r: real)
    ensures 0.0 <= r && (r == x || r == -x)
  {
    if x < 0.0 then -x else x
  }

  /** The session variables of the source, one field each. */
  datatype State = State(
    rotation: real, scale: real,
    recognized: bool, gesture: Gesture, swipe: Direction,
    swipeX: real, swipeY: real,
    gestureTime: Time, initialTime: Time)

  /**
   * What every reachable session satisfies: a recognised session names a
   * gesture, a swipe gesture is recognised and has a direction, and the
   * elapsed time never exceeds the time limit (exceeding it resets).
   */
  predicate Consistent(s: State) {
    && (s.recognized ==> s.gesture != Gesture.None)
    && (s.gesture == Gesture.Swipe ==> s.recognized && s.swipe != Direction.None)
    && (s.gestureTime.Ms? ==> s.gestureTime.value <= MaxGestureTime)
  }

  /** `resetGesture`: every session variable back to its default, except the start time. */
  function Reset(s: State): (r: State)
    ensures Consistent(r)
    ensures r.initialTime == s.initialTime
  {
    State(0.0, 1.0, false, Gesture.None, Direction.None, 0.0, 0.0, Ms(0), s.initialTime)
  }

  /** Reset sessions differ only in their start time. */
  lemma ResetForgets(s: State, t: State)
    ensures Reset(s) == Reset(t) <==> s.initialTime == t.initialTime
  {
  }

  lemma ResetIdempotent(s: State)
    ensures Reset(Reset(s)) == Reset(s)
  {
  }

  /** The platform's tap signal commits the tap gesture, whatever was there. */
  function Tapped(s: State): (r: State)
    ensures Consistent(s) ==> Consistent(r)
    ensures r.recognized && r.gesture == Gesture.Tap
  {
    s.(recognized := true, gesture := Gesture.Tap)
  }

  /**
   * The direction rule of the swipe detector over the accumulated
   * displacement (`sx`, `sy`) and the latest delta (`dx`, `dy`). The
   * horizontal and vertical conditions exclude each other, so each
   * direction has a condition of its own.
   */
  function SwipeDirection(sx: real, sy: real, dx: real, dy: real): (d: Direction)
    ensures d == Direction.Left <==> Abs(sx) > MinSwipeDistance && Abs(dx) > Abs(dy) && dx > 0.0
    ensures d == Direction.Right <==> Abs(sx) > MinSwipeDistance && Abs(dx) > Abs(dy) && dx <= 0.0
    ensures d == Direction.Up <==> Abs(sy) > MinSwipeDistance && Abs(dy) > Abs(dx) && dy > 0.0
    ensures d == Direction.Down <==> Abs(sy) > MinSwipeDistance && Abs(dy) > Abs(dx) && dy <= 0.0
  {
    if Abs(sx) > MinSwipeDistance && Abs(dx) > Abs(dy) then
      (if dx > 0.0 then Direction.Left else Direction.Right)
    else if Abs(sy) > MinSwipeDistance && Abs(dy) > Abs(dx) then
      (if dy > 0.0 then Direction.Up else Direction.Down)
    else Direction.None
  }

  /** One finger's move: accumulate its delta and re-decide the direction. */
  function Tracked(s: State, f: Pointer): (r: State)
    ensures r.swipeX == s.swipeX + f.deltaX && r.swipeY == s.swipeY + f.deltaY
    ensures r.swipe == SwipeDirection(r.swipeX, r.swipeY, f.deltaX, f.deltaY)
    ensures r.swipe == Direction.None ==> !r.recognized
    ensures r.swipe != Direction.None ==> r.recognized == s.recognized
    ensures r.(swipeX := s.swipeX, swipeY := s.swipeY, swipe := s.swipe, recognized := s.recognized) == s
  {
    var sx := s.swipeX + f.deltaX;
    var sy := s.swipeY + f.deltaY;
    var d := SwipeDirection(sx, sy, f.deltaX, f.deltaY);
    s.(swipeX := sx, swipeY := sy, swipe := d,
       recognized := if d == Direction.None then false else s.recognized)
  }

  /**
   * `detectSwipe`, given the sole pointer when exactly one is active. A
   * committed swipe is kept; otherwise a stored direction other than none
   * commits the swipe gesture, whatever the number of pointers.
   */
  function SwipeStep(s: State, finger: Option<Pointer>): (r: State)
    ensures Consistent(s) ==> Consistent(r)
    ensures s.gesture == Gesture.Swipe ==> r == s
    ensures r.rotation == s.rotation && r.scale == s.scale
    ensures r.gestureTime == s.gestureTime && r.initialTime == s.initialTime
    ensures finger.None? ==> r.swipe == s.swipe && r.swipeX == s.swipeX && r.swipeY == s.swipeY
  {
    if s.gesture == Gesture.Swipe then s
    else
      var s1 := if finger.Some? then Tracked(s, finger.value) else s;
      if s1.swipe != Direction.None then s1.(recognized := true, gesture := Gesture.Swipe) else s1
  }

  /**
   * With one pointer and no swipe yet, its delta is added to the
   * accumulators; the gesture becomes swipe exactly when the direction rule
   * fires, and otherwise the session is marked unrecognised with its gesture
   * unchanged.
   */
  lemma SwipeWithOneFinger(s: State, f: Pointer)
    requires s.gesture != Gesture.Swipe
    ensures var r := SwipeStep(s, Some(f));
      var d := SwipeDirection(s.swipeX + f.deltaX, s.swipeY + f.deltaY, f.deltaX, f.deltaY);
      && r.swipeX == s.swipeX + f.deltaX && r.swipeY == s.swipeY + f.deltaY
      && r.swipe == d
      && (d != Direction.None ==> r.recognized && r.gesture == Gesture.Swipe)
      && (d == Direction.None ==> !r.recognized && r.gesture == s.gesture)
  {
  }

  /** Without exactly one pointer the accumulators stay, and a stored direction still commits. */
  lemma SwipeWithoutOneFinger(s: State)
    requires s.gesture != Gesture.Swipe
    ensures var r := SwipeStep(s, Option.None);
      r.gesture == (if s.swipe != Direction.None then Gesture.Swipe else s.gesture)
  {
  }

  /** The sessions after a series of pointer-move events, each given by its swipe finger. */
  function SwipeRun(s: State, fingers: seq<Option<Pointer>>): State
    decreases |fingers|
  {
    if fingers == [] then s else SwipeRun(SwipeStep(s, fingers[0]), fingers[1..])
  }

  /** A committed swipe survives any number of further moves unchanged. */
  lemma {:induction false} SwipeSticky(s: State, fingers: seq<Option<Pointer>>)
    requires s.gesture == Gesture.Swipe
    ensures SwipeRun(s, fingers) == s
    decreases |fingers|
  {
    if fingers != [] {
      SwipeSticky(SwipeStep(s, fingers[0]), fingers[1..]);
    }
  }

  /** The start time after a classification call: restarted while no gesture is set. */
  function StartTime(s: State, now: int): (r: Time)
    ensures s.gesture == Gesture.None ==> r == Ms(now)
    ensures s.gesture != Gesture.None ==> r == s.initialTime
  {
    if s.gesture == Gesture.None then Ms(now) else s.initialTime
  }

  /** The elapsed time of a classification call (`NaN` while no start time was ever set). */
  function Elapsed(s: State, now: int): (r: Time)
    ensures StartTime(s, now).Ms? ==> r == Ms(now - StartTime(s, now).value)
    ensures StartTime(s, now).Undefined? ==> r == Undefined
    ensures s.gesture == Gesture.None ==> r == Ms(0)
  {
    var start := StartTime(s, now);
    if start.Ms? then Ms(now - start.value) else Undefined
  }

  /**
   * A call times out exactly when a gesture is set, its clock was started,
   * and more than the maximum gesture time has passed since.
   */
  predicate TimesOut(s: State, now: int): (b: bool)
    ensures b <==> s.gesture != Gesture.None && s.initialTime.Ms? && now - s.initialTime.value > MaxGestureTime
  {
    Elapsed(s, now).Ms? && Elapsed(s, now).value > MaxGestureTime
  }

  /** The timer part of `detectGesture`. */
  function Timed(s: State, now: int): (r: State)
    ensures Consistent(s) ==> Consistent(r)
    ensures r.initialTime == StartTime(s, now)
    ensures !TimesOut(s, now) ==> r == s.(initialTime := StartTime(s, now), gestureTime := Elapsed(s, now))
    ensures TimesOut(s, now) ==> r == Reset(s.(initialTime := StartTime(s, now)))
  {
    var s1 := s.(initialTime := StartTime(s, now), gestureTime := Elapsed(s, now));
    if TimesOut(s, now) then Reset(s1) else s1
  }

  /** A session with no gesture restarts its clock and cannot time out. */
  lemma FreshSessionStartsClock(s: State, now: int)
    requires s.gesture == Gesture.None
    ensures !TimesOut(s, now)
    ensures Timed(s, now).initialTime == Ms(now) && Timed(s, now).gestureTime == Ms(0)
  {
  }

  /**
   * The rotation/scale update of `detectGesture`. Relative deltas accumulate
   * (rotation only above the jitter floor, scale always, multiplicatively);
   * absolute values overwrite.
   */
  function Accumulated(s: State, rotationIn: real, scaleIn: real, relative: bool): (r: State)
    ensures relative ==> r == s.(rotation := s.rotation + Contribution(rotationIn), scale := s.scale * scaleIn)
    ensures !relative ==> r == s.(rotation := rotationIn, scale := scaleIn)
    ensures Consistent(s) ==> Consistent(r)
  {
    if relative then
      s.(rotation := if Abs(rotationIn) > RotationJitter then s.rotation + rotationIn else s.rotation,
         scale := s.scale * scaleIn)
    else
      s.(rotation := rotationIn, scale := scaleIn)
  }

  /** The rotation a relative delta contributes: nothing at or below the jitter floor. */
  function Contribution(rotationIn: real): real {
    if Abs(rotationIn) > RotationJitter then rotationIn else 0.0
  }

  function RotationSum(deltas: seq<(real, real)>): real
    decreases |deltas|
  {
    if deltas == [] then 0.0 else RotationSum(deltas[..|deltas| - 1]) + Contribution(deltas[|deltas| - 1].0)
  }

  function ScaleProduct(deltas: seq<(real, real)>): real
    decreases |deltas|
  {
    if deltas == [] then 1.0 else ScaleProduct(deltas[..|deltas| - 1]) * deltas[|deltas| - 1].1
  }

  /** The session after a series of relative (rotation, scale) deltas. */
  function AccumulatedAll(s: State, deltas: seq<(real, real)>): State
    decreases |deltas|
  {
    if deltas == [] then s
    else
      var last := deltas[|deltas| - 1];
      Accumulated(AccumulatedAll(s, deltas[..|deltas| - 1]), last.0, last.1, true)
  }

  /**
   * Relative mode sums the rotation deltas above the jitter floor and
   * multiplies the scale factors, and touches nothing else.
   */
  lemma {:induction false} RelativeAccumulation(s: State, deltas: seq<(real, real)>)
    ensures AccumulatedAll(s, deltas).rotation == s.rotation + RotationSum(deltas)
    ensures AccumulatedAll(s, deltas).scale == s.scale * ScaleProduct(deltas)
    ensures AccumulatedAll(s, deltas).(rotation := s.rotation, scale := s.scale) == s
    decreases |deltas|
  {
    if deltas != [] {
      var init := deltas[..|deltas| - 1];
      var c := deltas[|deltas| - 1].1;
      RelativeAccumulation(s, init);
      assert s.scale * ScaleProduct(init) * c == s.scale * (ScaleProduct(init) * c);
    }
  }

  /** Absolute mode forgets what was accumulated before. */
  lemma AbsoluteOverwrites(s: State, t: State, rotationIn: real, scaleIn: real)
    requires s.(rotation := t.rotation, scale := t.scale) == t
    ensures Accumulated(s, rotationIn, scaleIn, false) == Accumulated(t, rotationIn, scaleIn, false)
  {
  }

  /** Every distance reaches the minimum; vacuously true with no pointers. */
  predicate AllMoved(d: seq<real>) {
    forall i :: 0 <= i < |d| ==> d[i] >= AnchorDistance
  }

  /** The scratch pattern: exactly two pointers, the first anchored, the second dragged far. */
  predicate IsScratch(d: seq<real>) {
    |d| == 2 && d[0] < AnchorDistance && d[1] > ScratchDistance
  }

  /**
   * The classification step of `detectGesture` over the total distances of
   * the active pointers in key order. Palm and scratch are decided first;
   * the min-distance block then runs regardless and can replace palm.
   */
  function Classified(s: State, d: seq<real>): (r: State)
    ensures Consistent(s) ==> Consistent(r)
    ensures r.(recognized := s.recognized, gesture := s.gesture) == s
  {
    if s.recognized then s
    else
      var s1 :=
        if |d| >= MinPalmPoints then s.(recognized := true, gesture := Gesture.Palm)
        else if IsScratch(d) then s.(recognized := true, gesture := Gesture.Scratch)
        else s;
      if AllMoved(d) then
        if Abs(s.rotation) >= MinGestureRotation then s1.(recognized := true, gesture := Gesture.Rotate)
        else if Abs(s.scale - 1.0) > MinGestureScale then
          s1.(recognized := true, gesture := if s.scale > 1.0 then Gesture.Stretch else Gesture.Pinch)
        else s1
      else s1
  }

  /** The motion verdict alone: rotate before stretch/pinch, or none. */
  function MotionVerdict(rotation: real, scale: real): (g: Gesture)
    ensures g in {Gesture.None, Gesture.Rotate, Gesture.Stretch, Gesture.Pinch}
  {
    if Abs(rotation) >= MinGestureRotation then Gesture.Rotate
    else if scale - 1.0 > MinGestureScale then Gesture.Stretch
    else if 1.0 - scale > MinGestureScale then Gesture.Pinch
    else Gesture.None
  }

  /**
   * The classifier's priority as it actually resolves, by an independent
   * definition: moving pointers with enough rotation or scale win over
   * everything (palm included); then palm; then scratch.
   */
  function Verdict(rotation: real, scale: real, d: seq<real>): Gesture {
    var m := MotionVerdict(rotation, scale);
    if AllMoved(d) && m != Gesture.None then m
    else if |d| >= MinPalmPoints then Gesture.Palm
    else if IsScratch(d) then Gesture.Scratch
    else Gesture.None
  }

  /** A scratch has an anchored pointer, so the motion block never overrides it. */
  lemma ScratchIsAnchored(d: seq<real>)
    requires IsScratch(d)
    ensures !AllMoved(d)
  {
  }

  /**
   * An unrecognised session commits exactly the verdict when there is one,
   * and otherwise stays unrecognised with its gesture unchanged; a
   * recognised session is left alone.
   */
  lemma ClassifiedIsVerdict(s: State, d: seq<real>)
    ensures var r := Classified(s, d);
      var v := Verdict(s.rotation, s.scale, d);
      && (s.recognized ==> r == s)
      && (!s.recognized && v != Gesture.None ==> r.recognized && r.gesture == v)
      && (!s.recognized && v == Gesture.None ==> r == s)
  {
  }

  /** Five or more pointers give palm unless every one has moved and the motion rule fires. */
  lemma PalmPriority(s: State, d: seq<real>)
    requires !s.recognized && |d| >= MinPalmPoints
    ensures var r := Classified(s, d);
      && r.recognized
      && (r.gesture == Gesture.Palm || (AllMoved(d) && r.gesture == MotionVerdict(s.rotation, s.scale)))
  {
  }

  /** Palm is overwritten: five moving pointers with a 25 degree rotation give rotate. */
  lemma PalmOverwritten(s: State)
    requires !s.recognized && s.rotation == 25.0
    ensures Classified(s, [20.0, 20.0, 20.0, 20.0, 20.0]).gesture == Gesture.Rotate
  {
  }

  /**
   * Scratch depends on the order of registration: the anchored pointer must
   * be the first key. With the same distances in the other order nothing is
   * committed.
   */
  lemma ScratchAsymmetry(s: State, anchored: real, dragged: real)
    requires !s.recognized && anchored < AnchorDistance && dragged > ScratchDistance
    ensures Classified(s, [anchored, dragged]).gesture == Gesture.Scratch
    ensures Classified(s, [dragged, anchored]) == s
  {
  }

  /** With moving pointers, rotation wins over scale when both exceed their thresholds. */
  lemma RotationBeforeScale(s: State, d: seq<real>)
    requires !s.recognized && AllMoved(d)
    requires Abs(s.rotation) >= MinGestureRotation && Abs(s.scale - 1.0) > MinGestureScale
    ensures Classified(s, d).gesture == Gesture.Rotate
  {
  }

  /** With no pointers at all the motion rule still applies. */
  lemma ZeroPointersClassify(s: State)
    requires !s.recognized && MotionVerdict(s.rotation, s.scale) != Gesture.None
    ensures Classified(s, []).recognized
    ensures Classified(s, []).gesture == MotionVerdict(s.rotation, s.scale)
  {
  }

  /**
   * `detectGesture`: the timer, then this event's rotation and scale, then
   * classification over the total distances in key order.
   */
  function GestureStep(s: State, now: int, rotationIn: real, scaleIn: real, relative: bool, d: seq<real>): (r: State)
    ensures Consistent(s) ==> Consistent(r)
    ensures r.swipe == s.swipe || r.swipe == Direction.None
  {
    Classified(Accumulated(Timed(s, now), rotationIn, scaleIn, relative), d)
  }

  /**
   * A recognised session that has not run out of time keeps its gesture;
   * only the clock, rotation and scale move.
   */
  lemma RecognizedIsSticky(s: State, now: int, rotationIn: real, scaleIn: real, relative: bool, d: seq<real>)
    requires Consistent(s) && s.recognized && !TimesOut(s, now)
    ensures var r := GestureStep(s, now, rotationIn, scaleIn, relative, d);
      r.recognized && r.gesture == s.gesture && r.swipe == s.swipe
  {
  }

  /**
   * Running out of time abandons the session: the call continues from a
   * reset session (keeping only the start time) with this event's rotation
   * and scale applied to the defaults.
   */
  lemma TimeoutRestarts(s: State, now: int, rotationIn: real, scaleIn: real, relative: bool, d: seq<real>)
    requires TimesOut(s, now)
    ensures s.gesture != Gesture.None
    ensures GestureStep(s, now, rotationIn, scaleIn, relative, d) ==
      Classified(State(if relative then Contribution(rotationIn) else rotationIn, scaleIn,
                       false, Gesture.None, Direction.None, 0.0, 0.0, Ms(0), s.initialTime), d)
  {
  }

  /** A finger that has not moved leaves a fresh session unrecognised, with no direction. */
  lemma StillFingerNoSwipe(s: State, f: Pointer)
    requires s == Reset(s) && f.deltaX == 0.0 && f.deltaY == 0.0
    ensures SwipeStep(s, Some(f)) == s
  {
  }

  /** A move of 70 towards smaller y, from rest, is a swipe up. */
  lemma SeventyUpIsSwipe(s: State, f: Pointer)
    requires s == Reset(s) && f.deltaX == 0.0 && f.deltaY == 70.0
    ensures SwipeStep(s, Some(f)).swipe == Direction.Up && SwipeStep(s, Some(f)).gesture == Gesture.Swipe
  {
  }

  /**
   * The literal swipe case: a pointer created at (100, 100) and moved to
   * (100, 30) produces no delta on that first update, so no swipe; a further
   * move of 70 towards smaller y is the swipe up.
   */
  lemma FirstMoveIsNoSwipe(s: State, sqrt: Sqrt)
    requires s == Reset(s)
    ensures var p1 := Moved(NewPointer(1, 100.0, 100.0), 100.0, 30.0, sqrt);
      var s1 := SwipeStep(s, Some(p1));
      var s2 := SwipeStep(s1, Some(Moved(p1, 100.0, -40.0, sqrt)));
      && s1.swipe == Direction.None && s1.gesture == Gesture.None
      && s2.swipe == Direction.Up && s2.gesture == Gesture.Swipe
  {
  }
}
