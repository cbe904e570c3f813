/**
 * The recogniser object: the module variables of the source as fields of
 * one class, mutated in place by the event handlers. Every method is tied
 * to the function of the `Registry` or `Session` module that specifies it.
 */
module Touch {
  import opened Wrappers
  import opened Registry
  import opened Session

  class Gestures {
    var pointers: map<Id, Pointer>
    var keys: seq<Id>
    var rotation: real
    var scale: real
    var recognized: bool
    var detectedGesture: Gesture
    var detectedSwipe: Direction
    var swipeX: real
    var swipeY: real
    var gestureTime: Time
    var initialTime: Time

    /** The session variables as one value. */
    function Snapshot(): State
      reads this
    {
      State(rotation, scale, recognized, detectedGesture, detectedSwipe, swipeX, swipeY, gestureTime, initialTime)
    }

    predicate Valid()
      reads this
    {
      RegistryValid(pointers, keys) && Consistent(Snapshot())
    }

    /** `init`: an empty registry and a reset session; no start time yet. */
    constructor ()
      ensures Valid()
      ensures pointers == map[] && keys == []
      ensures Snapshot() == State(0.0, 1.0, false, Gesture.None, Direction.None, 0.0, 0.0, Ms(0), Undefined)
    {
      pointers := map[];
      keys := [];
      initialTime := Undefined;
      new;
      ResetGesture();
    }

    /** `resetGesture`. */
    method ResetGesture()
      modifies this
      ensures Snapshot() == Reset(old(Snapshot()))
      ensures pointers == old(pointers) && keys == old(keys)
    {
      rotation := 0.0;
      scale := 1.0;
      recognized := false;
      detectedSwipe := Direction.None;
      detectedGesture := Gesture.None;
      gestureTime := Ms(0);
      swipeX := 0.0;
      swipeY := 0.0;
    }

    /** `onMSGestureTap`. */
    method OnGestureTap()
      requires Valid()
      modifies this
      ensures Valid()
      ensures Snapshot() == Tapped(old(Snapshot()))
      ensures pointers == old(pointers) && keys == old(keys)
    {
      recognized := true;
      detectedGesture := Gesture.Tap;
    }

    /**
     * `addTouchPoint`: an id in neither the keys nor the records is appended
     * and gets a fresh record, which is returned; otherwise nothing changes
     * and nothing is returned.
     */
    method AddTouchPoint(id: Id, x: real, y: real) returns (r: Option<Pointer>)
      requires Valid()
      modifies this
      ensures Valid() && Snapshot() == old(Snapshot())
      ensures id !in old(keys) && id !in old(pointers) ==>
        && keys == old(keys) + [id]
        && pointers == old(pointers)[id := NewPointer(id, x, y)]
        && r == Some(NewPointer(id, x, y))
      ensures id in old(keys) || id in old(pointers) ==>
        keys == old(keys) && pointers == old(pointers) && r.None?
    {
      if IndexOf(keys, id) == -1 {
        if id !in pointers {
          keys := keys + [id];
          var touchPoint := NewPointer(id, x, y);
          pointers := pointers[id := touchPoint];
          return Some(touchPoint);
        }
      }
      return Option.None;
    }

    /**
     * `updateTouchPoint`: an unknown id is ignored; a known record is moved
     * field by field as `Moved` says.
     */
    method UpdateTouchPoint(id: Id, x: real, y: real, sqrt: Sqrt)
      requires Valid()
      modifies this
      ensures Valid() && Snapshot() == old(Snapshot()) && keys == old(keys)
      ensures id !in old(pointers) ==> pointers == old(pointers)
      ensures id in old(pointers) ==> pointers == old(pointers)[id := Moved(old(pointers)[id], x, y, sqrt)]
    {
      if id !in pointers {
        return;
      }
      var pointer := pointers[id];
      if pointer.prevX.Some? && pointer.prevY.Some? {
        var dx := pointer.prevX.value - x;
        var dy := pointer.prevY.value - y;
        var distance := sqrt(SquaredLength(dx, dy));
        pointer := pointer.(deltaX := dx, deltaY := dy, distance := distance,
                            totalDistance := pointer.totalDistance + distance,
                            prevX := Some(pointer.clientX), prevY := Some(pointer.clientY));
      } else {
        pointer := pointer.(prevX := Some(x), prevY := Some(y));
      }
      pointer := pointer.(clientX := x, clientY := y);
      assert pointer == Moved(pointers[id], x, y, sqrt);
      pointers := pointers[id := pointer];
    }

    /**
     * `removeTouchPoint`: the record goes, and the keys lose the id's
     * position, or the last key when the id is not among them.
     */
    method RemoveTouchPoint(id: Id)
      requires Valid()
      modifies this
      ensures Valid() && Snapshot() == old(Snapshot())
      ensures pointers == old(pointers) - {id}
      ensures keys == RemovedKey(old(keys), id)
    {
      RemovePreservesRegistry(pointers, keys, id);
      pointers := pointers - {id};
      var index := IndexOf(keys, id);
      keys := Splice(keys, index);
    }

    /**
     * `removeAllTouchPoints`: removes the keys from the last to the first;
     * records that had no key survive.
     */
    method RemoveAllTouchPoints()
      requires Valid()
      modifies this
      ensures Valid() && Snapshot() == old(Snapshot())
      ensures keys == []
      ensures pointers == old(pointers) - KeySet(old(keys))
    {
      ghost var K, P := keys, pointers;
      var i := |keys| - 1;
      while i >= 0
        invariant -1 <= i < |K|
        invariant keys == K[..i + 1]
        invariant pointers == P - KeySet(K[i + 1..])
        invariant Valid() && Snapshot() == old(Snapshot())
      {
        RemovedLastKey(keys);
        RemoveTouchPoint(keys[i]);
        assert KeySet(K[i..]) == KeySet(K[i + 1..]) + {K[i]} by {
          assert K[i..] == [K[i]] + K[i + 1..];
        }
        i := i - 1;
      }
      assert K[0..] == K;
    }

    /** `detectSwipe`. */
    method DetectSwipe()
      requires Valid()
      modifies this
      ensures Valid() && pointers == old(pointers) && keys == old(keys)
      ensures Snapshot() == SwipeStep(old(Snapshot()), Finger(pointers, keys))
    {
      if detectedGesture == Gesture.Swipe {
        return;
      }
      if |keys| == 1 {
        var finger := pointers[keys[0]];
        swipeX := swipeX + finger.deltaX;
        swipeY := swipeY + finger.deltaY;
        var swipeAbsX := Abs(finger.deltaX);
        var swipeAbsY := Abs(finger.deltaY);
        if Abs(swipeX) > MinSwipeDistance && swipeAbsX > swipeAbsY {
          detectedSwipe := if finger.deltaX > 0.0 then Direction.Left else Direction.Right;
        } else if Abs(swipeY) > MinSwipeDistance && swipeAbsY > swipeAbsX {
          detectedSwipe := if finger.deltaY > 0.0 then Direction.Up else Direction.Down;
        } else {
          recognized := false;
          detectedSwipe := Direction.None;
        }
      }
      if detectedSwipe != Direction.None {
        recognized := true;
        detectedGesture := Gesture.Swipe;
      }
    }

    /** The min-distance scan of `detectGesture`: does every active pointer have the minimum total distance? */
    method MinDistanceMet() returns (met: bool)
      requires Valid()
      ensures met == AllMoved(TotalDistances(pointers, keys))
    {
      met := true;
      var i := |keys| - 1;
      while i >= 0
        invariant -1 <= i < |keys|
        invariant met == forall j :: i < j < |keys| ==> pointers[keys[j]].totalDistance >= AnchorDistance
      {
        if pointers[keys[i]].totalDistance < AnchorDistance {
          met := false;
        }
        i := i - 1;
      }
    }

    /**
     * `detectGesture`, with the clock reading `now` and the event's rotation
     * (in degrees) and scale passed in: the timer, the rotation/scale update,
     * then classification.
     */
    method DetectGesture(now: int, rotationIn: real, scaleIn: real, relative: bool)
      requires Valid()
      modifies this
      ensures Valid() && pointers == old(pointers) && keys == old(keys)
      ensures Snapshot() == GestureStep(old(Snapshot()), now, rotationIn, scaleIn, relative, TotalDistances(pointers, keys))
    {
      UpdateTimer(now);
      ApplyDeltas(rotationIn, scaleIn, relative);
      Classify();
    }

    /** The timer part of `detectGesture`: restart the clock while no gesture is set, reset on timeout. */
    method UpdateTimer(now: int)
      requires Valid()
      modifies this
      ensures Valid() && pointers == old(pointers) && keys == old(keys)
      ensures Snapshot() == Timed(old(Snapshot()), now)
    {
      if detectedGesture == Gesture.None {
        initialTime := Ms(now);
      }
      gestureTime := if initialTime.Ms? then Ms(now - initialTime.value) else Undefined;
      if gestureTime.Ms? && gestureTime.value > MaxGestureTime {
        ResetGesture();
      }
    }

    /** The rotation/scale part of `detectGesture`. */
    method ApplyDeltas(rotationIn: real, scaleIn: real, relative: bool)
      requires Valid()
      modifies this
      ensures Valid() && pointers == old(pointers) && keys == old(keys)
      ensures Snapshot() == Accumulated(old(Snapshot()), rotationIn, scaleIn, relative)
    {
      if relative {
        if Abs(rotationIn) > RotationJitter {
          rotation := rotation + rotationIn;
        }
        scale := scale * scaleIn;
      } else {
        rotation := rotationIn;
        scale := scaleIn;
      }
    }

    /** The classification part of `detectGesture`. */
    method Classify()
      requires Valid()
      modifies this
      ensures Valid() && pointers == old(pointers) && keys == old(keys)
      ensures Snapshot() == Classified(old(Snapshot()), TotalDistances(pointers, keys))
    {
      if !recognized {
        if |keys| >= MinPalmPoints {
          recognized := true;
          detectedGesture := Gesture.Palm;
        } else if |keys| == 2 {
          if pointers[keys[0]].totalDistance < AnchorDistance && pointers[keys[1]].totalDistance > ScratchDistance {
            recognized := true;
            detectedGesture := Gesture.Scratch;
          }
        }

        var minDistance := MinDistanceMet();
        if minDistance {
          if Abs(rotation) >= MinGestureRotation {
            recognized := true;
            detectedGesture := Gesture.Rotate;
          } else if Abs(scale - 1.0) > MinGestureScale {
            recognized := true;
            detectedGesture := if scale > 1.0 then Gesture.Stretch else Gesture.Pinch;
          }
        }
      }
    }

    /** `getNumTouchPoints`: never more than there are records. */
    function GetNumTouchPoints(): (n: nat)
      reads this
      requires Valid()
      ensures n == |keys| && n <= |pointers|
    {
      KeysFitRecords(pointers, keys);
      |keys|
    }

    /** `getTouchPoint(index)`: the record of the index-th active pointer, if there is one. */
    function GetTouchPoint(index: int): (r: Option<Pointer>)
      reads this
      requires Valid()
      ensures r.Some? <==> 0 <= index < |keys|
      ensures r.Some? ==> r.value.pointerId == keys[index] && r.value == pointers[keys[index]]
    {
      if 0 <= index < |keys| then Some(pointers[keys[index]]) else Option.None
    }

    function GetRotation(): (r: real)
      reads this
      ensures r == rotation
    {
      rotation
    }

    function GetScale(): (r: real)
      reads this
      ensures r == scale
    {
      scale
    }

    /** `getGesture`: a recognised session always names a gesture. */
    function GetGesture(): (g: Gesture)
      reads this
      requires Valid()
      ensures g == detectedGesture
      ensures recognized ==> g != Gesture.None
      ensures g == Gesture.Swipe ==> detectedSwipe != Direction.None
    {
      detectedGesture
    }

    /** `getSwipe`: a swipe gesture always has a direction. */
    function GetSwipe(): (d: Direction)
      reads this
      requires Valid()
      ensures d == detectedSwipe
      ensures detectedGesture == Gesture.Swipe ==> d != Direction.None
    {
      detectedSwipe
    }

    /** `getGestureTime`: never above the time limit. */
    function GetGestureTime(): (t: Time)
      reads this
      requires Valid()
      ensures t == gestureTime
      ensures t.Ms? ==> t.value <= MaxGestureTime
    {
      gestureTime
    }
  }

  /**
   * A single pointer created at (100, 100): its first move only fixes the
   * baseline, and the next move of 70 towards smaller y is a swipe up.
   */
  method SwipeScenario(sqrt: Sqrt)
  {
    var g := new Gestures();
    var p := g.AddTouchPoint(1, 100.0, 100.0);
    ghost var p0 := NewPointer(1, 100.0, 100.0);
    assert g.keys == [1] && g.pointers[1] == p0;
    ghost var p1 := Moved(p0, 100.0, 30.0, sqrt);
    ghost var p2 := Moved(p1, 100.0, -40.0, sqrt);
    ghost var rest := g.Snapshot();
    FirstMoveIsNoSwipe(rest, sqrt);
    g.UpdateTouchPoint(1, 100.0, 30.0, sqrt);
    assert g.keys == [1] && g.pointers[1] == p1 && g.Snapshot() == rest;
    g.DetectSwipe();
    ghost var s1 := g.Snapshot();
    assert s1 == SwipeStep(rest, Some(p1));
    assert g.detectedSwipe == Direction.None && g.detectedGesture == Gesture.None;
    g.UpdateTouchPoint(1, 100.0, -40.0, sqrt);
    assert g.keys == [1] && g.pointers[1] == p2 && g.Snapshot() == s1;
    g.DetectSwipe();
    assert g.Snapshot() == SwipeStep(s1, Some(p2));
    assert g.detectedSwipe == Direction.Up && g.detectedGesture == Gesture.Swipe;
  }

  /**
   * Removing a pointer twice drops the other pointer's key on the second
   * call, and its record stays behind: adding it again is then refused.
   */
  method RemovalScenario()
  {
    var g := new Gestures();
    var a := g.AddTouchPoint(1, 0.0, 0.0);
    var b := g.AddTouchPoint(2, 5.0, 5.0);
    assert g.keys == [1, 2];
    g.RemoveTouchPoint(1);
    assert g.keys == [2] by { assert [1, 2][..0] + [1, 2][1..] == [2]; }
    g.RemoveTouchPoint(1);
    assert g.GetNumTouchPoints() == 0 && 2 in g.pointers;
    var c := g.AddTouchPoint(2, 5.0, 5.0);
    assert c.None? && g.GetNumTouchPoints() == 0;
  }
}
