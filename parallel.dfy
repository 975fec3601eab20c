/**
 * The Parallelism executor of parallelism/parallel/core.py: a phase-gated
 * state machine that runs a pool of `slots` worker threads once per batch,
 * in the order a BatchExecutionOrder gives, and keeps what each worker
 * returns in a results dict per batch.
 *
 * Every operation is gated on one phase: in its own phase it acts and then
 * (usually) moves to the next phase; in any other phase it reports failure
 * and changes nothing. Threads are not modelled as threads: the three state
 * changes a worker makes (ready, returned, ended) are methods of their own
 * that may be interleaved with the main thread's calls in any order.
 */
module Parallel {
  import opened Runtime
  import opened Phases
  import opened Sequencer
  import opened Dicts
  import Ids

  /** Runner(fxn, end): the two callables a worker invokes, named by opaque tokens. */
  datatype Runner = Runner(fxn: int, fxnEnd: int)

  /** Every field of a Parallelism, for stating what an operation leaves alone. */
  datatype State = State(
    phase: CalculationPhase,
    batches: int,
    slots: int,
    results: map<int, Dict>,
    fxn: Attr<Option<Runner>>,
    iterOrder: Attr<Option<BatchExecutionOrder>>,
    threadsStarted: int,
    threadsStopped: int,
    threadsStopped2: int,
    currentBatch: int,
    currentRef: Attr<Dict>,
    monitoring: bool,
    readWriteLockHeld: bool)

  /** The entries of d whose value is in things, in order. */
  function Matching(d: Dict, things: set<int>): Dict
  {
    if d == [] then []
    else if d[0].1 in things then [d[0]] + Matching(d[1..], things)
    else Matching(d[1..], things)
  }

  /** Matching keeps exactly the entries whose value is in things. */
  lemma {:induction false} MatchingMembers(d: Dict, things: set<int>)
    ensures forall e :: e in Matching(d, things) <==> e in d && e.1 in things
  {
    if d != [] {
      MatchingMembers(d[1..], things);
      assert d == [d[0]] + d[1..];
    }
  }

  /** The values of the generator find_things over d, collected into a list. */
  method CollectMatching(d: Dict, things: set<int>) returns (found: Dict)
    ensures found == Matching(d, things)
  {
    found := [];
    var k := 0;
    while k < |d|
      invariant 0 <= k <= |d|
      invariant found + Matching(d[k..], things) == Matching(d, things)
    {
      assert d[k..][1..] == d[k + 1..];
      if d[k].1 in things {
        found := found + [d[k]];
      }
      k := k + 1;
    }
    assert found + [] == found;
  }

  /** Parallelism. */
  class Parallelism {
    var phase: CalculationPhase
    // Set by start; the model gives them values from the beginning, and
    // reading them while the phase is still INITIALISE raises AttributeError
    // as reading the unassigned Python attributes does.
    var batches: int
    var slots: int
    var results: map<int, Dict>              // results[batch][slot]
    var fxn: Attr<Option<Runner>>
    var iterOrder: Attr<Option<BatchExecutionOrder>>
    var threadsStarted: int
    var threadsStopped: int
    var threadsStopped2: int
    var currentBatch: int
    // _current_batch_results_ref: while currentBatch is a key of results,
    // results[currentBatch] is this very dict, so a write through one is
    // seen through the other.
    var currentRef: Attr<Dict>
    var monitoring: bool
    // Whether _read_write_lock (a plain, non-reentrant lock) is taken. A
    // worker's write takes and frees it in one step, so between steps only a
    // monitoring session can be holding it.
    var readWriteLockHeld: bool

    ghost function Snapshot(): State
      reads this
    {
      State(phase, batches, slots, results, fxn, iterOrder, threadsStarted, threadsStopped,
            threadsStopped2, currentBatch, currentRef, monitoring, readWriteLockHeld)
    }

    /**
     * What every reachable state satisfies:
     *   - the operating parameters are positive once they are final;
     *   - the executor and the order are there once the main cycle has begun;
     *   - no batch dict (so no thread, and no counted thread) exists before
     *     the first spawn_threads, and from the go signal to the batch's end
     *     there is one;
     *   - while results holds the current batch, it holds the dict the
     *     workers write to;
     *   - no monitoring session before the first batch, and while one is
     *     active the read-write lock is held.
     */
    ghost predicate Valid()
      reads this
    {
      && (Before(SetOperatingParameters, phase) ==> batches > 0 && slots > 0)
      && (Before(FinalizeOperatingParameters, phase) ==>
            fxn.Present? && fxn.value.Some? && iterOrder.Present? && iterOrder.value.Some?)
      && (!Before(FinalizeOperatingParameters, phase) ==> currentRef.Missing?)
      && (currentRef.Missing? ==>
            results == map[] && threadsStarted == 0 && threadsStopped == 0 && threadsStopped2 == 0 && !monitoring)
      && (phase in {TellThreadsGo, MonitorThreads, SeeThreadsStop, SeeBatchEnd} ==> currentRef.Present?)
      && (currentBatch in results ==> currentRef.Present? && results[currentBatch] == currentRef.value)
      && (currentRef.Present? ==> UniqueKeys(currentRef.value))
      && (monitoring ==> readWriteLockHeld)
    }

    /** The order object, once there is one. */
    function Order(): BatchExecutionOrder
      requires iterOrder.Present? && iterOrder.value.Some?
      reads this
    {
      iterOrder.value.value
    }

    /** The objects besides this one that spawn_threads may change. */
    function OrderFrame(): set<object>
      reads this
    {
      if iterOrder.Present? && iterOrder.value.Some? then {iterOrder.value.value} else {}
    }

    /** Parallelism(start_now): in INITIALISE, then started if start_now. */
    constructor (startNow: bool)
      ensures Valid()
      ensures phase == (if startNow then SetOperatingParameters else Initialise)
      ensures batches == 0 && slots == 0 && results == map[]
      ensures fxn == Missing && iterOrder == Missing && currentRef == Missing
    {
      phase := Phases.Start();
      batches, slots, results := 0, 0, map[];
      fxn, iterOrder := Missing, Missing;
      threadsStarted, threadsStopped, threadsStopped2 := 0, 0, 0;
      currentBatch, currentRef := 0, Missing;
      monitoring, readWriteLockHeld := false, false;
      new;
      if startNow {
        var _ := Start();
      }
    }

    // CalculationPhases.INITIALISE

    /** start: only in INITIALISE; no batches, no slots, no results yet; on to SET_OPERATING_PARAMETERS. */
    method Start() returns (ok: bool)
      requires Valid()
      modifies this
      ensures Valid()
      ensures ok <==> old(phase) == Initialise
      ensures Snapshot() == if ok then old(Snapshot()).(phase := SetOperatingParameters, batches := 0, slots := 0, results := map[])
                            else old(Snapshot())
    {
      if phase == Initialise {
        batches, slots, results := 0, 0, map[];
        phase := NextPhase(phase);
        return true;
      }
      return false;
    }

    // CalculationPhases.SET_OPERATING_PARAMETERS

    /** set_number_of_batches: only in SET_OPERATING_PARAMETERS. */
    method SetNumberOfBatches(batches: int) returns (ok: bool)
      requires Valid()
      modifies this
      ensures Valid()
      ensures ok <==> old(phase) == SetOperatingParameters
      ensures Snapshot() == if ok then old(Snapshot()).(batches := batches) else old(Snapshot())
    {
      if phase == SetOperatingParameters {
        this.batches := batches;
        return true;
      }
      return false;
    }

    /** get_batches, in any phase; an AttributeError before start. */
    method GetBatches() returns (r: Result<int>)
      ensures r == if phase == Initialise then Raised(AttributeError) else Ok(batches)
    {
      if phase == Initialise {
        return Raised(AttributeError);
      }
      return Ok(batches);
    }

    /** set_number_of_slots: only in SET_OPERATING_PARAMETERS. */
    method SetNumberOfSlots(slots: int) returns (ok: bool)
      requires Valid()
      modifies this
      ensures Valid()
      ensures ok <==> old(phase) == SetOperatingParameters
      ensures Snapshot() == if ok then old(Snapshot()).(slots := slots) else old(Snapshot())
    {
      if phase == SetOperatingParameters {
        this.slots := slots;
        return true;
      }
      return false;
    }

    /** get_slots, in any phase; an AttributeError before start. */
    method GetSlots() returns (r: Result<int>)
      ensures r == if phase == Initialise then Raised(AttributeError) else Ok(slots)
    {
      if phase == Initialise {
        return Raised(AttributeError);
      }
      return Ok(slots);
    }

    /** generate_batches_and_slots: on to FINALIZE_OPERATING_PARAMETERS once there is work to do. */
    method GenerateBatchesAndSlots() returns (ok: bool)
      requires Valid()
      modifies this
      ensures Valid()
      ensures ok <==> old(phase) == SetOperatingParameters && old(batches) > 0 && old(slots) > 0
      ensures Snapshot() == if ok then old(Snapshot()).(phase := FinalizeOperatingParameters) else old(Snapshot())
    {
      if phase == SetOperatingParameters {
        if batches > 0 && slots > 0 {
          phase := NextPhase(phase);
          return true;
        }
      }
      return false;
    }

    // CalculationPhases.FINALIZE_OPERATING_PARAMETERS

    /** set_executor (None is accepted too): only in FINALIZE_OPERATING_PARAMETERS. */
    method SetExecutor(fxn: Option<Runner>) returns (ok: bool)
      requires Valid()
      modifies this
      ensures Valid()
      ensures ok <==> old(phase) == FinalizeOperatingParameters
      ensures Snapshot() == if ok then old(Snapshot()).(fxn := Present(fxn)) else old(Snapshot())
    {
      if phase == FinalizeOperatingParameters {
        this.fxn := Present(fxn);
        return true;
      }
      return false;
    }

    /**
     * has_executor: False too early, whether one (not None) was given while
     * in FINALIZE_OPERATING_PARAMETERS (AttributeError if none was ever
     * set), and True afterwards.
     */
    method HasExecutor() returns (r: Result<bool>)
      ensures Before(phase, FinalizeOperatingParameters) ==> r == Ok(false)
      ensures phase == FinalizeOperatingParameters ==>
                r == if fxn.Missing? then Raised(AttributeError) else Ok(fxn.value.Some?)
      ensures Before(FinalizeOperatingParameters, phase) ==> r == Ok(true)
    {
      if Before(phase, FinalizeOperatingParameters) {
        return Ok(false);
      } else if phase == FinalizeOperatingParameters {
        if fxn.Missing? {
          return Raised(AttributeError);
        }
        return Ok(fxn.value.Some?);
      }
      return Ok(true);
    }

    /** set_batch_execution_order (None asks for the default order): only in FINALIZE_OPERATING_PARAMETERS. */
    method SetBatchExecutionOrder(order: Option<BatchExecutionOrder>) returns (ok: bool)
      requires Valid()
      modifies this
      ensures Valid()
      ensures ok <==> old(phase) == FinalizeOperatingParameters
      ensures Snapshot() == if ok then old(Snapshot()).(iterOrder := Present(order)) else old(Snapshot())
    {
      if phase == FinalizeOperatingParameters {
        iterOrder := Present(order);
        return true;
      }
      return false;
    }

    /** has_batch_execution_order: as has_executor, for the order. */
    method HasBatchExecutionOrder() returns (r: Result<bool>)
      ensures Before(phase, FinalizeOperatingParameters) ==> r == Ok(false)
      ensures phase == FinalizeOperatingParameters ==>
                r == if iterOrder.Missing? then Raised(AttributeError) else Ok(iterOrder.value.Some?)
      ensures Before(FinalizeOperatingParameters, phase) ==> r == Ok(true)
    {
      if Before(phase, FinalizeOperatingParameters) {
        return Ok(false);
      } else if phase == FinalizeOperatingParameters {
        if iterOrder.Missing? {
          return Raised(AttributeError);
        }
        return Ok(iterOrder.value.Some?);
      }
      return Ok(true);
    }

    /**
     * prepare_to_spawn_thread: only in FINALIZE_OPERATING_PARAMETERS and with
     * an executor. Without an order it installs BatchExecutionOrder(range(batches), batches);
     * it zeroes the thread counters and the current batch and moves on to
     * SPAWN_THREADS, with a new, free read-write lock. Reading an executor or
     * an order that was never set raises AttributeError. (The Events and the
     * counter locks it creates are not modelled.)
     */
    method PrepareToSpawnThread() returns (r: Result<bool>)
      requires Valid()
      modifies this
      ensures Valid()
      ensures r in {Ok(true), Ok(false), Raised(AttributeError)}
      ensures r == Ok(true) <==>
                old(phase) == FinalizeOperatingParameters && old(fxn).Present? && old(fxn).value.Some? && old(iterOrder).Present?
      ensures r == Raised(AttributeError) <==>
                old(phase) == FinalizeOperatingParameters && (old(fxn).Missing? || (old(fxn).value.Some? && old(iterOrder).Missing?))
      ensures r != Ok(true) ==> Snapshot() == old(Snapshot())
      ensures r == Ok(true) ==>
                iterOrder.Present? && iterOrder.value.Some? &&
                Snapshot() == old(Snapshot()).(phase := CalculationPhase.SpawnThreads, iterOrder := iterOrder,
                                               threadsStarted := 0, threadsStopped := 0, threadsStopped2 := 0, currentBatch := 0,
                                               readWriteLockHeld := false)
      ensures r == Ok(true) && old(iterOrder).value.Some? ==> iterOrder == old(iterOrder)
      ensures r == Ok(true) && old(iterOrder).value.None? ==>
                fresh(Order()) && Order().items == Range(batches) && Order().endingPoint == batches
                && Order().quota == 0 && Order().placeholder == -1
    {
      if phase == FinalizeOperatingParameters {
        if fxn.Missing? {
          return Raised(AttributeError);
        }
        if fxn.value.Some? {
          if iterOrder.Missing? {
            return Raised(AttributeError);
          }
          if iterOrder.value.None? {
            var order := new BatchExecutionOrder(Range(batches), batches);
            iterOrder := Present(Some(order));
          }
          threadsStarted, threadsStopped, threadsStopped2 := 0, 0, 0;
          currentBatch := 0;
          readWriteLockHeld := false;
          phase := NextPhase(phase);
          return Ok(true);
        }
      }
      return Ok(false);
    }

    // CalculationPhases.SPAWN_THREADS

    /**
     * spawn_threads as written: 0 outside SPAWN_THREADS; 2, and on to
     * FINALIZE, when the order's quota is met; otherwise the next batch
     * number from the order (whose RuntimeError at its end propagates)
     * becomes the current batch with a fresh empty results dict, and 1.
     * The thread counters are left as they are. Starting the worker threads
     * is not modelled; their state changes are ThreadReady, ThreadReturned
     * and ThreadEnded.
     */
    method SpawnThreadsAsWritten() returns (r: Result<int>)
      requires Valid()
      modifies this, OrderFrame()
      ensures Valid()
      ensures old(phase) != CalculationPhase.SpawnThreads ==> r == Ok(0) && Snapshot() == old(Snapshot())
      ensures old(phase) == CalculationPhase.SpawnThreads ==> iterOrder == old(iterOrder)
      ensures old(phase) == CalculationPhase.SpawnThreads && old(Order().endingPoint <= Order().quota) ==>
                r == Ok(2) && Snapshot() == old(Snapshot()).(phase := Finalize) && unchanged(Order())
      ensures old(phase) == CalculationPhase.SpawnThreads && old(Order().quota < Order().endingPoint) ==>
                var step := old(CycleStep(Order().items, Order().placeholder, true));
                && Order().quota == old(Order().quota) + 1 && Order().placeholder == step.1
                && Order().items == old(Order().items) && Order().endingPoint == old(Order().endingPoint)
                && r == (if step.0.Ok? then Ok(1) else Raised(RuntimeError))
                && Snapshot() == if step.0.Raised? then old(Snapshot()) else
                     old(Snapshot()).(currentBatch := step.0.value, results := old(results)[step.0.value := []],
                                      currentRef := Present([]))
    {
      if phase == CalculationPhase.SpawnThreads {
        var order := iterOrder.value.value;
        var met := order.IsQuotaMeet();
        if met {
          phase := Finalize;
          return Ok(2);
        }
        var next := order.FullNext(true);
        if next.Raised? {
          return Raised(next.error);
        }
        currentBatch := next.value;
        var t: Dict := [];
        results := results[currentBatch := t];
        currentRef := Present(t);
        return Ok(1);
      }
      return Ok(0);
    }

    /**
     * spawn_threads as intended: as written, and each batch's pool of
     * threads starts with the three counters at 0, so that what
     * prepare_to_invoke_calls, conclude_threads and finalize_batch compare
     * with the number of slots counts this batch's threads only.
     */
    method SpawnThreads() returns (r: Result<int>)
      requires Valid()
      modifies this, OrderFrame()
      ensures Valid()
      ensures old(phase) != CalculationPhase.SpawnThreads ==> r == Ok(0) && Snapshot() == old(Snapshot())
      ensures old(phase) == CalculationPhase.SpawnThreads ==> iterOrder == old(iterOrder)
      ensures old(phase) == CalculationPhase.SpawnThreads && old(Order().endingPoint <= Order().quota) ==>
                r == Ok(2) && Snapshot() == old(Snapshot()).(phase := Finalize) && unchanged(Order())
      ensures old(phase) == CalculationPhase.SpawnThreads && old(Order().quota < Order().endingPoint) ==>
                var step := old(CycleStep(Order().items, Order().placeholder, true));
                && Order().quota == old(Order().quota) + 1 && Order().placeholder == step.1
                && Order().items == old(Order().items) && Order().endingPoint == old(Order().endingPoint)
                && r == (if step.0.Ok? then Ok(1) else Raised(RuntimeError))
                && Snapshot() == if step.0.Raised? then old(Snapshot()) else
                     old(Snapshot()).(currentBatch := step.0.value, results := old(results)[step.0.value := []],
                                      currentRef := Present([]), threadsStarted := 0, threadsStopped := 0, threadsStopped2 := 0)
    {
      r := SpawnThreadsAsWritten();
      if r == Ok(1) {
        threadsStarted, threadsStopped, threadsStopped2 := 0, 0, 0;
      }
    }

    /** A worker of the current batch is ready (`_number_threads_started += 1`). */
    method ThreadReady()
      requires Valid() && currentRef.Present?
      modifies this
      ensures Valid()
      ensures Snapshot() == old(Snapshot()).(threadsStarted := old(threadsStarted) + 1)
    {
      threadsStarted := threadsStarted + 1;
    }

    /**
     * The worker for slot has returned value; a result other than None is
     * stored in the current batch's dict, which results shares while it
     * holds the current batch, then `_number_threads_stopped += 1`. The
     * write is made under the read-write lock, so it waits while a
     * monitoring session holds it: this step can only be taken while the
     * lock is free.
     */
    method ThreadReturned(slot: int, value: Option<int>)
      requires Valid() && currentRef.Present?
      requires value.Some? ==> !readWriteLockHeld
      modifies this
      ensures Valid()
      ensures value.None? ==> Snapshot() == old(Snapshot()).(threadsStopped := old(threadsStopped) + 1)
      ensures value.Some? ==>
                var d := Put(old(currentRef.value), slot, value.value);
                Snapshot() == old(Snapshot()).(threadsStopped := old(threadsStopped) + 1, currentRef := Present(d),
                                               results := if old(currentBatch) in old(results) then old(results)[old(currentBatch) := d]
                                                          else old(results))
    {
      if value.Some? {
        PutKeepsOrder(currentRef.value, slot, value.value);
        var d := Put(currentRef.value, slot, value.value);
        currentRef := Present(d);
        if currentBatch in results {
          results := results[currentBatch := d];
        }
      }
      threadsStopped := threadsStopped + 1;
    }

    /** A worker has finished its end call (`_number_threads_stopped2 += 1`). */
    method ThreadEnded()
      requires Valid() && currentRef.Present?
      modifies this
      ensures Valid()
      ensures Snapshot() == old(Snapshot()).(threadsStopped2 := old(threadsStopped2) + 1)
    {
      threadsStopped2 := threadsStopped2 + 1;
    }

    /** prepare_to_invoke_calls: in SPAWN_THREADS, 2 and on to TELL_THREADS_GO once all slots are ready, else 1; 0 elsewhere. */
    method PrepareToInvokeCalls() returns (r: int)
      requires Valid()
      modifies this
      ensures Valid()
      ensures r == (if old(phase) != CalculationPhase.SpawnThreads then 0 else if old(threadsStarted) == old(slots) then 2 else 1)
      ensures Snapshot() == if r == 2 then old(Snapshot()).(phase := TellThreadsGo) else old(Snapshot())
    {
      if phase == CalculationPhase.SpawnThreads {
        if threadsStarted == slots {
          phase := NextPhase(phase);
          return 2;
        }
        return 1;
      }
      return 0;
    }

    // CalculationPhases.TELL_THREADS_GO

    /** begin_all_invocations: in TELL_THREADS_GO, no monitoring session yet, on to MONITOR_THREADS. */
    method BeginAllInvocations() returns (ok: bool)
      requires Valid()
      modifies this
      ensures Valid()
      ensures ok <==> old(phase) == TellThreadsGo
      ensures Snapshot() == if ok then old(Snapshot()).(phase := MonitorThreads, monitoring := false) else old(Snapshot())
    {
      if phase == TellThreadsGo {
        monitoring := false;
        phase := NextPhase(phase);
        return true;
      }
      return false;
    }

    // CalculationPhases.MONITOR_THREADS

    /**
     * turn_monitoring_on(on_not_off) as written; it acts only in MONITOR_THREADS.
     *   - on: False if a session is already active; otherwise the session
     *     starts and takes the read-write lock. That acquire does not wait
     *     (Locker.acquire passes a timeout of 0), so a lock an earlier
     *     session left held simply stays held.
     *   - off: the guard `elif not self._monitoring` only fires when no
     *     session is active. An active session is never ended; with none,
     *     the lock is released, which raises RuntimeError if it is free.
     */
    method TurnMonitoringOnAsWritten(onNotOff: bool) returns (r: Result<bool>)
      requires Valid()
      modifies this
      ensures Valid()
      ensures old(phase) != MonitorThreads ==> r == Ok(false) && Snapshot() == old(Snapshot())
      ensures old(phase) == MonitorThreads && onNotOff ==>
                r == Ok(!old(monitoring)) && Snapshot() == old(Snapshot()).(monitoring := true, readWriteLockHeld := true)
      ensures old(phase) == MonitorThreads && !onNotOff && old(monitoring) ==>
                r == Ok(true) && Snapshot() == old(Snapshot())
      ensures old(phase) == MonitorThreads && !onNotOff && !old(monitoring) ==>
                r == (if old(readWriteLockHeld) then Ok(true) else Raised(RuntimeError))
                && Snapshot() == old(Snapshot()).(readWriteLockHeld := false)
    {
      if phase == MonitorThreads {
        if onNotOff {
          if monitoring {
            return Ok(false);
          }
          readWriteLockHeld := true;
          monitoring := true;
        } else if !monitoring {
          monitoring := false;
          if !readWriteLockHeld {
            return Raised(RuntimeError);
          }
          readWriteLockHeld := false;
        }
        return Ok(true);
      }
      return Ok(false);
    }

    /**
     * turn_monitoring_on(on_not_off) with the off guard as intended
     * (`elif self._monitoring`): turning off ends an active session and
     * frees the lock it holds; turning off with no session changes nothing.
     */
    method TurnMonitoringOn(onNotOff: bool) returns (ok: bool)
      requires Valid()
      modifies this
      ensures Valid()
      ensures old(phase) != MonitorThreads ==> !ok && Snapshot() == old(Snapshot())
      ensures old(phase) == MonitorThreads ==> ok == (!onNotOff || !old(monitoring)) && monitoring == onNotOff
      ensures old(phase) == MonitorThreads && onNotOff ==>
                Snapshot() == old(Snapshot()).(monitoring := true, readWriteLockHeld := true)
      ensures old(phase) == MonitorThreads && !onNotOff ==>
                Snapshot() == if old(monitoring) then old(Snapshot()).(monitoring := false, readWriteLockHeld := false)
                              else old(Snapshot())
    {
      if phase == MonitorThreads {
        if onNotOff {
          if monitoring {
            return false;
          }
          readWriteLockHeld := true;
          monitoring := true;
        } else if monitoring {
          monitoring := false;
          readWriteLockHeld := false;
        }
        return true;
      }
      return false;
    }

    /**
     * is_monitoring_turned_on as written: False outside MONITOR_THREADS;
     * otherwise it reads the flag inside `with Mutex(self._read_write_lock)`,
     * so while a session holds that lock the call waits (Hangs), for ever
     * when the caller is the thread that turned monitoring on. Since an
     * active session always holds the lock, it never answers True.
     */
    method IsMonitoringTurnedOnAsWritten() returns (r: Ids.Call<bool>)
      requires Valid()
      ensures phase != MonitorThreads ==> r == Ids.Returns(false)
      ensures phase == MonitorThreads ==> (r == Ids.Hangs <==> readWriteLockHeld)
      ensures phase == MonitorThreads && !readWriteLockHeld ==> r == Ids.Returns(monitoring)
      ensures r != Ids.Returns(true)
    {
      if phase != MonitorThreads {
        return Ids.Returns(false);
      }
      if readWriteLockHeld {
        return Ids.Hangs;
      }
      return Ids.Returns(monitoring);
    }

    /**
     * is_monitoring_turned_on as its docstring describes it, reading the flag
     * without the lock the session holds (under _monitoring_lock, which
     * prepare_to_spawn_thread creates and nothing else uses): whether a
     * session is active in MONITOR_THREADS, False elsewhere.
     */
    method IsMonitoringTurnedOn() returns (r: bool)
      ensures r <==> phase == MonitorThreads && monitoring
    {
      return phase == MonitorThreads && monitoring;
    }

    /** get(slot): the current batch's result for slot, 0 if it has none; AttributeError before the first batch. */
    method Get(slot: int) returns (r: Result<int>)
      requires Valid()
      ensures currentRef.Missing? ==> r == Raised(AttributeError)
      ensures currentRef.Present? && !HasKey(currentRef.value, slot) ==> r == Ok(0)
      ensures currentRef.Present? && HasKey(currentRef.value, slot) ==>
                r.Ok? && (slot, r.value) in currentRef.value
    {
      if currentRef.Missing? {
        return Raised(AttributeError);
      }
      return Ok(Dicts.Get(currentRef.value, slot, 0));
    }

    /**
     * index_slot_from_value(candidate): the slot of the first result (in
     * insertion order) equal to candidate, or -1 if there is none.
     */
    method IndexSlotFromValue(candidate: int) returns (r: Result<int>)
      ensures currentRef.Missing? ==> r == Raised(AttributeError)
      ensures currentRef.Present? ==> r.Ok?
      ensures currentRef.Present? && (forall i :: 0 <= i < |currentRef.value| ==> currentRef.value[i].1 != candidate) ==>
                r == Ok(-1)
      ensures currentRef.Present? && (exists i :: 0 <= i < |currentRef.value| && currentRef.value[i].1 == candidate) ==>
                exists i :: 0 <= i < |currentRef.value| && currentRef.value[i] == (r.value, candidate)
                       && forall j :: 0 <= j < i ==> currentRef.value[j].1 != candidate
    {
      if currentRef.Missing? {
        return Raised(AttributeError);
      }
      var d := currentRef.value;
      var k := 0;
      while k < |d|
        invariant 0 <= k <= |d|
        invariant forall j :: 0 <= j < k ==> d[j].1 != candidate
      {
        if d[k].1 == candidate {
          return Ok(d[k].0);
        }
        k := k + 1;
      }
      return Ok(-1);
    }

    /**
     * find_things(things): everything the generator yields, namely each
     * (slot, value) of the current batch whose value is in things, in
     * insertion order, and then (-1, 0).
     */
    method FindThings(things: set<int>) returns (r: Result<seq<(int, int)>>)
      ensures currentRef.Missing? ==> r == Raised(AttributeError)
      ensures currentRef.Present? ==> r == Ok(Matching(currentRef.value, things) + [(-1, 0)])
    {
      if currentRef.Missing? {
        return Raised(AttributeError);
      }
      var found := CollectMatching(currentRef.value, things);
      return Ok(found + [(-1, 0)]);
    }

    /** conclude_threads: in MONITOR_THREADS, 2 and on to SEE_THREADS_STOP once every slot has returned, else 1; 0 elsewhere. */
    method ConcludeThreads() returns (r: int)
      requires Valid()
      modifies this
      ensures Valid()
      ensures r == (if old(phase) != MonitorThreads then 0 else if old(threadsStopped) == old(slots) then 2 else 1)
      ensures Snapshot() == if r == 2 then old(Snapshot()).(phase := SeeThreadsStop) else old(Snapshot())
    {
      if phase == MonitorThreads {
        if threadsStopped == slots {
          phase := NextPhase(phase);
          return 2;
        }
        return 1;
      }
      return 0;
    }

    // CalculationPhases.SEE_THREADS_STOP

    /**
     * finalize_batch(continue_batches): in SEE_THREADS_STOP once every worker
     * has ended, drop the current batch from results if it produced nothing,
     * and go back to SPAWN_THREADS (or on to SEE_BATCH_END); False otherwise.
     * Dropping a batch that results no longer holds raises KeyError.
     */
    method FinalizeBatch(continueBatches: bool) returns (r: Result<bool>)
      requires Valid()
      modifies this
      ensures Valid()
      ensures r == Ok(false) <==> !(old(phase) == SeeThreadsStop && old(threadsStopped2) == old(slots))
      ensures r.Raised? <==>
                old(phase) == SeeThreadsStop && old(threadsStopped2) == old(slots)
                && |old(currentRef.value)| == 0 && old(currentBatch) !in old(results)
      ensures r.Raised? ==> r.error == KeyError
      ensures r == Ok(true) <==>
                old(phase) == SeeThreadsStop && old(threadsStopped2) == old(slots)
                && (|old(currentRef.value)| != 0 || old(currentBatch) in old(results))
      ensures r != Ok(true) ==> Snapshot() == old(Snapshot())
      ensures r == Ok(true) ==>
                Snapshot() == old(Snapshot()).(phase := if continueBatches then CalculationPhase.SpawnThreads else SeeBatchEnd,
                                               results := if |old(currentRef.value)| == 0 then old(results) - {old(currentBatch)}
                                                          else old(results))
    {
      if phase == SeeThreadsStop {
        if threadsStopped2 == slots {
          if |currentRef.value| == 0 {
            if currentBatch !in results {
              return Raised(KeyError);
            }
            results := results - {currentBatch};
          }
          phase := if continueBatches then CalculationPhase.SpawnThreads else SeeBatchEnd;
          return Ok(true);
        }
      }
      return Ok(false);
    }

    /** count_batch_results: the number of results of the current batch in SEE_THREADS_STOP, None elsewhere. */
    method CountBatchResults() returns (r: Option<int>)
      requires Valid()
      ensures r == if phase == SeeThreadsStop then Some(|currentRef.value|) else None
    {
      if phase == SeeThreadsStop {
        return Some(|currentRef.value|);
      }
      return None;
    }
  }

  /** The set-up of run_parallel with batches = 2, slots = 1 and the default order. */
  method Configure() returns (p: Parallelism)
    ensures fresh(p) && p.Valid() && p.phase == CalculationPhase.SpawnThreads
    ensures p.slots == 1 && p.threadsStarted == 0 && p.threadsStopped == 0 && p.threadsStopped2 == 0
    ensures p.results == map[] && p.currentRef.Missing? && !p.readWriteLockHeld
    ensures fresh(p.Order()) && p.Order().items == Range(2) && p.Order().endingPoint == 2
    ensures p.Order().quota == 0 && p.Order().placeholder == -1
  {
    p := new Parallelism(true);
    var ok := p.SetNumberOfBatches(2);
    ok := p.SetNumberOfSlots(1);
    ok := p.GenerateBatchesAndSlots();
    ok := p.SetExecutor(Some(Runner(0, 1)));
    ok := p.SetBatchExecutionOrder(None);
    var prepared := p.PrepareToSpawnThread();
  }

  /**
   * The first batch of that run, up to the go signal: spawned, and its one
   * worker gets ready.
   */
  method StartFirstBatch(p: Parallelism, asWritten: bool)
    requires p.Valid() && p.phase == CalculationPhase.SpawnThreads
    requires p.slots == 1 && p.threadsStarted == 0 && p.threadsStopped == 0 && p.threadsStopped2 == 0
    requires p.Order().items == Range(2) && p.Order().endingPoint == 2
    requires p.Order().quota == 0 && p.Order().placeholder == -1
    requires p.results == map[] && !p.readWriteLockHeld
    modifies p, p.OrderFrame()
    ensures p.Valid() && p.phase == MonitorThreads && p.iterOrder == old(p.iterOrder)
    ensures p.slots == 1 && p.threadsStarted == 1 && p.threadsStopped == 0 && p.threadsStopped2 == 0
    ensures p.Order().items == Range(2) && p.Order().endingPoint == 2
    ensures p.Order().quota == 1 && p.Order().placeholder == 0
    ensures p.currentBatch == 0 && p.results == map[0 := []] && p.currentRef == Present([]) && !p.readWriteLockHeld
  {
    var spawned := Spawn(p, asWritten);
    p.ThreadReady();
    var invoked := p.PrepareToInvokeCalls();
    var ok := p.BeginAllInvocations();
  }

  /** The rest of the first batch: its worker returns 7 and ends, and the batch is finalized. */
  method EndFirstBatch(p: Parallelism)
    requires p.Valid() && p.phase == MonitorThreads
    requires p.slots == 1 && p.threadsStopped == 0 && p.threadsStopped2 == 0
    requires p.currentBatch == 0 && p.results == map[0 := []] && p.currentRef == Present([]) && !p.readWriteLockHeld
    modifies p
    ensures p.Valid() && p.phase == CalculationPhase.SpawnThreads && p.iterOrder == old(p.iterOrder)
    ensures p.slots == 1 && p.threadsStarted == old(p.threadsStarted) && p.threadsStopped == 1 && p.threadsStopped2 == 1
    ensures p.currentBatch == 0 && p.results == map[0 := [(0, 7)]]
  {
    p.ThreadReturned(0, Some(7));
    assert p.currentRef.value == Put([], 0, 7) == [(0, 7)];
    var concluded := p.ConcludeThreads();
    assert p.phase == SeeThreadsStop;
    p.ThreadEnded();
    assert p.phase == SeeThreadsStop && p.threadsStopped2 == p.slots;
    var finalized := p.FinalizeBatch(true);
  }

  /**
   * run_parallel with batches = 2 and slots = 1, on the model of
   * spawn_threads given as asWritten: after the first batch, the second
   * batch is spawned, and r is what prepare_to_invoke_calls says right
   * after that, before the second batch's worker has got ready. As written
   * the counters still hold the first batch's count, so the go signal is
   * given at once; as intended the call waits for the worker.
   */
  method SecondBatchReadiness(asWritten: bool) returns (p: Parallelism, r: int)
    ensures p.Valid() && p.currentBatch == 1
    ensures asWritten ==> r == 2 && p.phase == TellThreadsGo
    ensures !asWritten ==> r == 1 && p.phase == CalculationPhase.SpawnThreads && p.threadsStarted == 0
  {
    p := Configure();
    StartFirstBatch(p, asWritten);
    EndFirstBatch(p);
    var spawned := Spawn(p, asWritten);
    r := p.PrepareToInvokeCalls();
  }

  /** spawn_threads, as written or as intended. */
  method Spawn(p: Parallelism, asWritten: bool) returns (r: Result<int>)
    requires p.Valid()
    modifies p, p.OrderFrame()
    ensures p.Valid()
    ensures old(p.phase) != CalculationPhase.SpawnThreads ==> r == Ok(0) && p.Snapshot() == old(p.Snapshot())
    ensures old(p.phase) == CalculationPhase.SpawnThreads ==> p.iterOrder == old(p.iterOrder)
    ensures old(p.phase) == CalculationPhase.SpawnThreads && old(p.Order().quota < p.Order().endingPoint) ==>
              var step := old(CycleStep(p.Order().items, p.Order().placeholder, true));
              && p.Order().quota == old(p.Order().quota) + 1 && p.Order().placeholder == step.1
              && p.Order().items == old(p.Order().items) && p.Order().endingPoint == old(p.Order().endingPoint)
              && r == (if step.0.Ok? then Ok(1) else Raised(RuntimeError))
              && p.Snapshot() == if step.0.Raised? then old(p.Snapshot()) else
                   old(p.Snapshot()).(currentBatch := step.0.value, results := old(p.results)[step.0.value := []],
                                      currentRef := Present([]),
                                      threadsStarted := if asWritten then old(p.threadsStarted) else 0,
                                      threadsStopped := if asWritten then old(p.threadsStopped) else 0,
                                      threadsStopped2 := if asWritten then old(p.threadsStopped2) else 0)
  {
    if asWritten {
      r := p.SpawnThreadsAsWritten();
    } else {
      r := p.SpawnThreads();
    }
  }
}
