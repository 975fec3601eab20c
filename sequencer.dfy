/**
 * Cycle and BatchExecutionOrder of parallelism/parallel/core.py. A Cycle
 * walks through a list, either raising at its end or starting over; a
 * BatchExecutionOrder is a Cycle of batch numbers that also counts how many
 * values were requested against a quota (its ending point).
 *
 * The iterable is modelled as a list, so that `iter()` on it always starts
 * afresh. The Python code keeps an iterator and a separate placeholder; for
 * a list the iterator's position is always the placeholder plus one, so the
 * model keeps only the placeholder and indexes the list.
 */
module Sequencer {
  import opened Runtime
  import opened Numbers

  /**
   * One `next(self._iterate(give_stop))` on a cycle over items whose
   * placeholder is placeholder: the value drawn (or the exception raised)
   * and the new placeholder.
   *   - the placeholder moves on by one and the item there is drawn;
   *   - past the end with give_stop, the StopIteration re-raised inside the
   *     generator `_iterate` surfaces as RuntimeError (PEP 479), and the
   *     placeholder stays moved on;
   *   - past the end without give_stop, the placeholder is reset and the
   *     first item drawn, which for an empty list recurses until Python's
   *     recursion limit gives RecursionError.
   */
  function CycleStep<T>(items: seq<T>, placeholder: int, giveStop: bool): (step: (Result<T>, int))
    ensures step.0.Ok? <==> (0 <= placeholder + 1 < |items| || (!giveStop && |items| > 0))
    ensures step.0.Ok? ==> 0 <= step.1 < |items| && step.0.value == items[step.1]
    ensures 0 <= placeholder + 1 < |items| ==> step.1 == placeholder + 1
    ensures step.0.Raised? && giveStop ==> step.0.error == RuntimeError && step.1 == placeholder + 1
    ensures step.0.Raised? && !giveStop ==> step.0.error == RecursionError && items == []
  {
    var p := placeholder + 1;
    if 0 <= p < |items| then (Ok(items[p]), p)
    else if giveStop then (Raised(RuntimeError), p)
    else if |items| == 0 then (Raised(RecursionError), -1)
    else (Ok(items[0]), 0)
  }

  /** Cycle: cycle through a list. */
  class Cycle<T> {
    var items: seq<T>
    var placeholder: int

    /** Cycle(an_iterable): nothing drawn yet. */
    constructor (anIterable: seq<T>)
      ensures items == anIterable && placeholder == -1
    {
      items := anIterable;
      placeholder := -1;
    }

    /** give_iterable: cycle through a new list, from its start. */
    method GiveIterable(iterable: seq<T>)
      modifies this
      ensures items == iterable && placeholder == -1
    {
      placeholder := -1;
      items := iterable;
    }

    /** retrieve_iterable: the list being cycled through. */
    method RetrieveIterable() returns (r: seq<T>)
      ensures r == items
    {
      r := items;
    }

    /** get_iteration: the index of the item last drawn (-1 before the first). */
    method GetIteration() returns (r: int)
      ensures r == placeholder
    {
      r := placeholder;
    }

    /** One value of the generator `next(give_stop)`. */
    method Next(giveStop: bool) returns (r: Result<T>)
      modifies this
      ensures (r, placeholder) == CycleStep(old(items), old(placeholder), giveStop)
      ensures items == old(items)
    {
      var step := CycleStep(items, placeholder, giveStop);
      r, placeholder := step.0, step.1;
    }
  }

  /** The placeholder after k values drawn without stopping from a fresh cycle. */
  function Placeholder<T>(items: seq<T>, k: nat): int
    decreases k
  {
    if k == 0 then -1 else CycleStep(items, Placeholder(items, k - 1), false).1
  }

  /**
   * Without give_stop a cycle over n > 0 items never raises: the value drawn
   * k-th (from 0) is item k mod n, so after the last item comes the first.
   */
  lemma {:induction false} CycleWrapsAround<T>(items: seq<T>, k: nat)
    requires |items| > 0
    ensures CycleStep(items, Placeholder(items, k), false) == (Ok(items[k % |items|]), k % |items|)
  {
    if k > 0 {
      CycleWrapsAround(items, k - 1);
      WrapStep(k - 1, |items|);
    }
  }

  /** Counting on by one modulo n either goes up by one or wraps to 0. */
  lemma WrapStep(k: nat, n: nat)
    requires n > 0
    ensures k % n + 1 < n ==> (k + 1) % n == k % n + 1
    ensures k % n + 1 >= n ==> (k + 1) % n == 0
  {
    var q, r := k / n, k % n;
    assert k == q * n + r;
    if r + 1 < n {
      ModUnique(k + 1, n, q, r + 1);
    } else {
      assert k + 1 == (q + 1) * n + 0;
      ModUnique(k + 1, n, q + 1, 0);
    }
  }

  /**
   * BatchExecutionOrder: the order in which batches run. Each request for a
   * value counts towards the quota, whether or not a value comes back.
   */
  class BatchExecutionOrder {
    var items: seq<int>
    var placeholder: int
    var endingPoint: int
    var quota: int

    /** BatchExecutionOrder(an_iterable, ending_point): nothing requested yet. */
    constructor (anIterable: seq<int>, endingPoint: int)
      ensures items == anIterable && placeholder == -1
      ensures this.endingPoint == endingPoint && quota == 0
    {
      quota := 0;
      placeholder := -1;
      items := anIterable;
      this.endingPoint := endingPoint;
    }

    /** get_ending_point: how many batches are to run. */
    method GetEndingPoint() returns (r: int)
      ensures r == endingPoint
    {
      r := endingPoint;
    }

    /** get_quota: how many values have been requested. */
    method GetQuota() returns (r: int)
      ensures r == quota
    {
      r := quota;
    }

    /** give_iterable: a new list, from its start, with the quota count back at 0. */
    method GiveIterable(iterable: seq<int>)
      modifies this
      ensures items == iterable && placeholder == -1 && quota == 0
      ensures endingPoint == old(endingPoint)
    {
      quota := 0;
      placeholder := -1;
      items := iterable;
    }

    /** retrieve_iterable. */
    method RetrieveIterable() returns (r: seq<int>)
      ensures r == items
    {
      r := items;
    }

    /** get_iteration. */
    method GetIteration() returns (r: int)
      ensures r == placeholder
    {
      r := placeholder;
    }

    /** is_quota_meet: as many values requested as batches are to run, or more. */
    method IsQuotaMeet() returns (r: bool)
      ensures r <==> endingPoint <= quota
    {
      r := endingPoint <= quota;
    }

    /**
     * full_next(give_stop) (and one value of the generator next(give_stop)):
     * count one request towards the quota, then draw from the cycle.
     */
    method FullNext(giveStop: bool) returns (r: Result<int>)
      modifies this
      ensures quota == old(quota) + 1
      ensures (r, placeholder) == CycleStep(old(items), old(placeholder), giveStop)
      ensures items == old(items) && endingPoint == old(endingPoint)
    {
      quota := quota + 1;
      var step := CycleStep(items, placeholder, giveStop);
      r, placeholder := step.0, step.1;
    }
  }

  /** range(n). */
  function Range(n: nat): (r: seq<int>)
    ensures |r| == n && forall i :: 0 <= i < n ==> r[i] == i
  {
    seq(n, i => i)
  }

  /**
   * The default order of prepare_to_spawn_thread, BatchExecutionOrder(range(n), n):
   * n calls of full_next give 0, 1, ..., n - 1 in turn; metDuring[k] is
   * is_quota_meet right after the (k + 1)-th of them, so the quota is met
   * exactly after the n-th draw and not before; one more call raises
   * RuntimeError.
   */
  method DefaultOrderRun(n: nat) returns (drawn: seq<int>, metBefore: bool, metDuring: seq<bool>, extra: Result<int>)
    ensures drawn == Range(n)
    ensures metBefore <==> n == 0
    ensures |metDuring| == n && forall k :: 0 <= k < n ==> (metDuring[k] <==> k == n - 1)
    ensures extra == Raised(RuntimeError)
  {
    var order := new BatchExecutionOrder(Range(n), n);
    metBefore := order.IsQuotaMeet();
    drawn, metDuring := [], [];
    while |drawn| < n
      invariant |drawn| <= n && |metDuring| == |drawn|
      invariant order.items == Range(n) && order.endingPoint == n
      invariant order.quota == |drawn| && order.placeholder == |drawn| - 1
      invariant drawn == Range(|drawn|)
      invariant forall k :: 0 <= k < |metDuring| ==> (metDuring[k] <==> k == n - 1)
    {
      var r := order.FullNext(true);
      drawn := drawn + [r.value];
      var met := order.IsQuotaMeet();
      metDuring := metDuring + [met];
    }
    extra := order.FullNext(true);
  }
}
