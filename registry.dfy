/**
 * The pointer registry of the gesture recogniser: one record per active
 * contact, the insertion-ordered list of active ids, and the two array
 * builtins (`indexOf`, `splice`) whose exact semantics decide what removal
 * does.
 */
module Registry {
  import opened Wrappers

  /** Pointer identifiers are numbers in the source (touch identifiers, pointer ids, a mouse counter). */
  type Id = int

  /**
   * `Math.sqrt` as the caller supplies it: any function that is non-negative
   * on non-negative arguments.
   */
  type Sqrt = f: real -> real | forall v :: 0.0 <= v ==> 0.0 <= f(v)
    witness (v: real) => v

  /**
   * A tracked contact. `prevX`/`prevY` are `None` until the first update.
   * Deltas are previous minus current, so a positive `deltaX` is a motion
   * towards smaller x.
   */
  datatype Pointer = Pointer(
    pointerId: Id,
    clientX: real, clientY: real,
    prevX: Option<real>, prevY: Option<real>,
    deltaX: real, deltaY: real,
    distance: real, totalDistance: real)

  /** The record `addTouchPoint` creates. */
  function NewPointer(id: Id, x: real, y: real): (r: Pointer)
    ensures r.pointerId == id && r.clientX == x && r.clientY == y
    ensures r.prevX.None? && r.prevY.None?
    ensures r.deltaX == 0.0 && r.deltaY == 0.0 && r.distance == 0.0 && r.totalDistance == 0.0
  {
    Pointer(id, x, y, None, None, 0.0, 0.0, 0.0, 0.0)
  }

  /** The squared length of a delta, the argument of `Math.sqrt`. */
  function SquaredLength(dx: real, dy: real): (r: real)
    ensures 0.0 <= r
  {
    assert 0.0 <= dx * dx by {
      if dx < 0.0 { assert dx * dx == (-dx) * (-dx); }
    }
    assert 0.0 <= dy * dy by {
      if dy < 0.0 { assert dy * dy == (-dy) * (-dy); }
    }
    dx * dx + dy * dy
  }

  /**
   * `updateTouchPoint` on one record. The first update only fixes the
   * baseline at the new position; later updates measure against `prevX`/`prevY`
   * and then move the baseline to the position held before this update.
   */
  function Moved(p: Pointer, x: real, y: real, sqrt: Sqrt): (r: Pointer)
    ensures r.pointerId == p.pointerId
    ensures r.clientX == x && r.clientY == y
    ensures r.prevX.Some? && r.prevY.Some?
    ensures p.totalDistance <= r.totalDistance
    ensures p.prevX.Some? && p.prevY.Some? ==>
      && r.deltaX == p.prevX.value - x && r.deltaY == p.prevY.value - y
      && 0.0 <= r.distance && r.totalDistance == p.totalDistance + r.distance
      && r.prevX == Some(p.clientX) && r.prevY == Some(p.clientY)
    ensures !(p.prevX.Some? && p.prevY.Some?) ==>
      && r.prevX == Some(x) && r.prevY == Some(y)
      && r.deltaX == p.deltaX && r.deltaY == p.deltaY
      && r.distance == p.distance && r.totalDistance == p.totalDistance
    ensures p.prevX.None? ==> r.deltaX == p.deltaX && r.deltaY == p.deltaY && r.totalDistance == p.totalDistance
  {
    if p.prevX.Some? && p.prevY.Some? then
      var dx := p.prevX.value - x;
      var dy := p.prevY.value - y;
      var d := sqrt(SquaredLength(dx, dy));
      p.(deltaX := dx, deltaY := dy, distance := d, totalDistance := p.totalDistance + d,
         prevX := Some(p.clientX), prevY := Some(p.clientY), clientX := x, clientY := y)
    else
      p.(prevX := Some(x), prevY := Some(y), clientX := x, clientY := y)
  }

  /** A fresh pointer's first update leaves it at rest, with its baseline at the new position. */
  lemma FirstUpdateIsBaseline(id: Id, x0: real, y0: real, x: real, y: real, sqrt: Sqrt)
    ensures var r := Moved(NewPointer(id, x0, y0), x, y, sqrt);
      r.deltaX == 0.0 && r.deltaY == 0.0 && r.distance == 0.0 && r.totalDistance == 0.0 &&
      r.prevX == Some(x) && r.prevY == Some(y)
  {
  }

  /** The second update's delta is one move: from the first update's position to the new one. */
  lemma SecondUpdateIsOneMove(id: Id, x0: real, y0: real, x1: real, y1: real, x2: real, y2: real, sqrt: Sqrt)
    ensures var r := Moved(Moved(NewPointer(id, x0, y0), x1, y1, sqrt), x2, y2, sqrt);
      r.deltaX == x1 - x2 && r.deltaY == y1 - y2
  {
  }

  /**
   * From the third update on, a delta spans two moves: it is measured from
   * the position held two updates earlier.
   */
  lemma DeltaSpansTwoMoves(p: Pointer, x1: real, y1: real, x2: real, y2: real, sqrt: Sqrt)
    requires p.prevX.Some? && p.prevY.Some?
    ensures var r := Moved(Moved(p, x1, y1, sqrt), x2, y2, sqrt);
      r.deltaX == p.clientX - x2 && r.deltaY == p.clientY - y2 &&
      r.prevX == Some(x1) && r.prevY == Some(y1)
  {
  }

  /** No id occurs twice. */
  predicate NoDup(s: seq<Id>) {
    forall i, j :: 0 <= i < j < |s| ==> s[i] != s[j]
  }

  /** `Array.prototype.indexOf`: the first position of `id`, or -1. */
  function IndexOf(s: seq<Id>, id: Id): (r: int)
    ensures -1 <= r < |s|
    ensures r == -1 <==> id !in s
    ensures 0 <= r ==> s[r] == id && forall j :: 0 <= j < r ==> s[j] != id
  {
    if s == [] then -1
    else if s[0] == id then 0
    else
      var i := IndexOf(s[1..], id);
      if i == -1 then -1
      else i + 1
  }

  /**
   * `Array.prototype.splice(start, 1)`: a negative start counts from the
   * end (clamped at 0), a start at or past the end removes nothing.
   */
  function Splice(s: seq<Id>, start: int): (r: seq<Id>)
    ensures 0 <= start < |s| ==> r == s[..start] + s[start + 1..]
    ensures start == -1 && s != [] ==> r == s[..|s| - 1]
    ensures start >= |s| ==> r == s
    ensures s == [] ==> r == []
  {
    var k := if start < 0 then (if |s| + start < 0 then 0 else |s| + start)
             else (if start < |s| then start else |s|);
    if k < |s| then s[..k] + s[k + 1..] else s
  }

  /**
   * The keys after `removeTouchPoint(id)`: `splice(indexOf(id), 1)`. An id
   * that is present is cut out at its first position; an absent one makes
   * `indexOf` return -1, and the last key is dropped instead.
   */
  function RemovedKey(keys: seq<Id>, id: Id): (r: seq<Id>)
    ensures id in keys ==> exists i :: 0 <= i < |keys| && keys[i] == id && r == keys[..i] + keys[i + 1..]
                                       && (forall j :: 0 <= j < i ==> keys[j] != id)
    ensures id !in keys ==> r == if keys == [] then [] else keys[..|keys| - 1]
  {
    var i := IndexOf(keys, id);
    Splice(keys, i)
  }

  lemma NoDupCut(s: seq<Id>, i: int)
    requires NoDup(s) && 0 <= i < |s|
    ensures NoDup(s[..i] + s[i + 1..])
    ensures forall x :: x in s[..i] + s[i + 1..] <==> x in s && x != s[i]
  {
    var r := s[..i] + s[i + 1..];
    forall a, b | 0 <= a < b < |r| ensures r[a] != r[b] {
      var a' := if a < i then a else a + 1;
      var b' := if b < i then b else b + 1;
      assert r[a] == s[a'] && r[b] == s[b'];
    }
    forall x ensures x in r <==> x in s && x != s[i] {
      if x in r {
        var k :| 0 <= k < |r| && r[k] == x;
        assert x == s[if k < i then k else k + 1];
      }
      if x in s && x != s[i] {
        var k :| 0 <= k < |s| && s[k] == x;
        assert k != i;
        assert x == r[if k < i then k else k - 1];
      }
    }
  }

  /**
   * Removing a key keeps the others in order and never creates a duplicate;
   * a tracked id is gone afterwards and nothing else is.
   */
  lemma {:induction false} RemovedKeyKeepsOthers(keys: seq<Id>, id: Id)
    requires NoDup(keys)
    ensures NoDup(RemovedKey(keys, id))
    ensures forall x :: x in RemovedKey(keys, id) ==> x in keys && x != id
    ensures id in keys ==> forall x :: x in RemovedKey(keys, id) <==> x in keys && x != id
  {
  }

  /** Removing the last key of a duplicate-free list drops exactly that key. */
  lemma RemovedLastKey(keys: seq<Id>)
    requires NoDup(keys) && keys != []
    ensures RemovedKey(keys, keys[|keys| - 1]) == keys[..|keys| - 1]
  {
  }

  /**
   * What the source's registry keeps true: no duplicate keys, every key has
   * a record, every record is filed under its own id, and total distances
   * are non-negative. Records without a key can exist (see `RemovedKey`).
   */
  predicate RegistryValid(pointers: map<Id, Pointer>, keys: seq<Id>) {
    && NoDup(keys)
    && (forall i :: 0 <= i < |keys| ==> keys[i] in pointers)
    && (forall k :: k in pointers ==> pointers[k].pointerId == k && 0.0 <= pointers[k].totalDistance)
  }

  /** `removeTouchPoint` keeps the registry invariant, whether or not the id was tracked. */
  lemma RemovePreservesRegistry(pointers: map<Id, Pointer>, keys: seq<Id>, id: Id)
    requires RegistryValid(pointers, keys)
    ensures RegistryValid(pointers - {id}, RemovedKey(keys, id))
  {
  }

  /** The ids of a key list, as a set. */
  function KeySet(s: seq<Id>): set<Id> {
    set k | k in s
  }

  /** A duplicate-free list has as many distinct elements as positions. */
  lemma {:induction false} DistinctCount(keys: seq<Id>)
    requires NoDup(keys)
    ensures |KeySet(keys)| == |keys|
    decreases |keys|
  {
    if keys != [] {
      var rest := keys[1..];
      assert NoDup(rest) by {
        forall i, j | 0 <= i < j < |rest| ensures rest[i] != rest[j] {
          assert rest[i] == keys[i + 1] && rest[j] == keys[j + 1];
        }
      }
      DistinctCount(rest);
      assert keys[0] !in rest by {
        forall j | 0 <= j < |rest| ensures rest[j] != keys[0] {
          assert rest[j] == keys[j + 1];
        }
      }
      assert KeySet(keys) == KeySet(rest) + {keys[0]} by {
        assert keys == [keys[0]] + rest;
      }
    }
  }

  /** There are never more active pointers than records. */
  lemma KeysFitRecords(pointers: map<Id, Pointer>, keys: seq<Id>)
    requires RegistryValid(pointers, keys)
    ensures |keys| <= |pointers|
  {
    DistinctCount(keys);
    var ks := KeySet(keys);
    assert ks <= pointers.Keys;
    assert pointers.Keys == ks + (pointers.Keys - ks);
  }

  /** The total distances of the active pointers, in key order. */
  function TotalDistances(pointers: map<Id, Pointer>, keys: seq<Id>): (d: seq<real>)
    requires forall i :: 0 <= i < |keys| ==> keys[i] in pointers
    ensures |d| == |keys|
    ensures forall i :: 0 <= i < |keys| ==> d[i] == pointers[keys[i]].totalDistance
  {
    seq(|keys|, i requires 0 <= i < |keys| => pointers[keys[i]].totalDistance)
  }

  /** The only pointer when exactly one is active (the swipe finger). */
  function Finger(pointers: map<Id, Pointer>, keys: seq<Id>): (f: Option<Pointer>)
    requires forall i :: 0 <= i < |keys| ==> keys[i] in pointers
    ensures f.Some? <==> |keys| == 1
    ensures f.Some? ==> f.value == pointers[keys[0]]
  {
    if |keys| == 1 then Some(pointers[keys[0]]) else None
  }

  /**
   * Removing the same id twice is not idempotent: the second call finds no
   * key, so `splice(-1, 1)` drops the last remaining key, whose record stays
   * behind without a key.
   */
  lemma RemoveTwiceDropsAnother()
    ensures RemovedKey([1, 2], 1) == [2]
    ensures RemovedKey(RemovedKey([1, 2], 1), 1) == []
  {
  }
}
