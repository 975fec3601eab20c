/**
 * The ID counter of parallelism/parallel/ids.py. IdSmugglerBase hands out
 * consecutive integers; IDs wraps the same three operations in a
 * non-reentrant lock. The model is sequential: the lock of an IDs object is
 * free whenever none of its methods is running, and acquiring it while it
 * is held by the same thread blocks for ever.
 */
module Ids {

  /** IdSmugglerBase: the next ID pending assignment. */
  class IdSmuggler {
    var id: int

    /** The first ID handed out is startingPoint (0 by default). */
    constructor (startingPoint: int)
      ensures id == startingPoint
    {
      id := startingPoint;
    }

    /** get_id: the ID that next_id would hand out; nothing changes. */
    method GetId() returns (r: int)
      ensures r == id
    {
      r := id;
    }

    /** next_id: hand out the pending ID and move on to the one after it. */
    method NextId() returns (r: int)
      modifies this
      ensures r == old(id) && id == old(id) + 1
    {
      r := id;
      AdvanceId(1);
    }

    /** advance_id(n): skip n IDs; a negative n moves the counter back. */
    method AdvanceId(numberOfTimes: int)
      modifies this
      ensures id == old(id) + numberOfTimes
    {
      id := id + numberOfTimes;
    }
  }

  /** k successive next_id calls hand out start, start + 1, ..., start + k - 1. */
  method TakeIds(ids: IdSmuggler, k: nat) returns (issued: seq<int>)
    modifies ids
    ensures |issued| == k
    ensures forall j :: 0 <= j < k ==> issued[j] == old(ids.id) + j
    ensures ids.id == old(ids.id) + k
  {
    issued := [];
    while |issued| < k
      invariant |issued| <= k
      invariant forall j :: 0 <= j < |issued| ==> issued[j] == old(ids.id) + j
      invariant ids.id == old(ids.id) + |issued|
    {
      var next := ids.NextId();
      issued := issued + [next];
    }
  }

  /**
   * `advance_id(-next_id())` as used between the two enumerations of
   * parallelism/parallel/core.py: whatever the counter was, it ends at 1,
   * not at 0, because next_id has already moved it on by one.
   */
  method Rewind(ids: IdSmuggler)
    modifies ids
    ensures ids.id == 1
  {
    var current := ids.NextId();
    ids.AdvanceId(-current);
  }

  /** What a call does: return a value, or block for ever on a lock its own thread holds. */
  datatype Call<T> = Returns(value: T) | Hangs

  /** IDs: an IdSmugglerBase whose methods each hold `_lock` while they run. */
  class LockedIds {
    var id: int
    var held: bool

    constructor (startingPoint: int)
      ensures id == startingPoint && !held
    {
      id := startingPoint;
      held := false;
    }

    /** get_id under the lock. */
    method GetId() returns (c: Call<int>)
      requires !held
      ensures c == Returns(id)
    {
      c := Returns(id);
    }

    /** advance_id(n) under the lock; acquiring a lock that is already held never returns. */
    method AdvanceId(numberOfTimes: int) returns (c: Call<()>)
      modifies this
      ensures old(held) ==> c == Hangs && id == old(id) && held
      ensures !old(held) ==> c == Returns(()) && id == old(id) + numberOfTimes && !held
    {
      if held {
        return Hangs;
      }
      held := true;
      id := id + numberOfTimes;
      held := false;
      return Returns(());
    }

    /**
     * next_id as written: with the lock held it runs IdSmugglerBase.next_id,
     * whose `self.advance_id()` reaches the overriding advance_id of IDs,
     * which acquires the same lock again. The call never returns and the
     * counter never moves.
     */
    method NextIdAsWritten() returns (c: Call<int>)
      requires !held
      modifies this
      ensures c == Hangs && id == old(id) && held
    {
      held := true;
      var tmp := id;
      var inner := AdvanceId(1);
      c := if inner.Hangs? then Hangs else Returns(tmp);
    }

    /** next_id as intended: under the lock, hand out the pending ID and move on to the one after it. */
    method NextId() returns (c: Call<int>)
      requires !held
      modifies this
      ensures c == Returns(old(id)) && id == old(id) + 1 && !held
    {
      held := true;
      var tmp := id;
      id := id + 1;
      held := false;
      return Returns(tmp);
    }
  }

  /** As written, the first next_id of a fresh IDs never returns, where IdSmugglerBase hands out its starting point. */
  method FirstNextIdHangs(startingPoint: int) returns (locked: Call<int>, plain: int)
    ensures locked == Hangs
    ensures plain == startingPoint
  {
    var ids := new LockedIds(startingPoint);
    locked := ids.NextIdAsWritten();
    var base := new IdSmuggler(startingPoint);
    plain := base.NextId();
  }

  /** With next_id as intended, IDs hands out the same IDs as IdSmugglerBase, call for call. */
  method SameIdsAsBase(startingPoint: int, k: nat) returns (locked: seq<int>, plain: seq<int>)
    ensures locked == plain
    ensures |plain| == k && forall j :: 0 <= j < k ==> plain[j] == startingPoint + j
  {
    var ids := new LockedIds(startingPoint);
    var base := new IdSmuggler(startingPoint);
    locked, plain := [], [];
    while |plain| < k
      invariant |locked| == |plain| <= k
      invariant locked == plain
      invariant forall j :: 0 <= j < |plain| ==> plain[j] == startingPoint + j
      invariant base.id == ids.id == startingPoint + |plain| && !ids.held
    {
      var c := ids.NextId();
      var next := base.NextId();
      locked := locked + [c.value];
      plain := plain + [next];
    }
  }
}
