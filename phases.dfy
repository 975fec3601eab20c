/**
 * CalculationPhases of parallelism/parallel/core.py: the linear sequence of
 * phases a Parallelism executor walks through. The members are IntEnum
 * values numbered 0..8 by an IdSmugglerBase counter, so they compare as
 * integers; FINALIZE is the last one and is its own successor.
 */
module Phases {
  import opened Ids

  datatype CalculationPhase =
    | Initialise
    | SetOperatingParameters
    | FinalizeOperatingParameters
    | SpawnThreads           // main cycle start
    | TellThreadsGo
    | MonitorThreads
    | SeeThreadsStop
    | SeeBatchEnd            // main cycle end
    | Finalize

  /** The members in declaration order. */
  const AllPhases: seq<CalculationPhase> := [
    Initialise, SetOperatingParameters, FinalizeOperatingParameters,
    SpawnThreads, TellThreadsGo, MonitorThreads,
    SeeThreadsStop, SeeBatchEnd, Finalize
  ]

  /** The integer value of a member (its position in the declaration). */
  function Ordinal(p: CalculationPhase): (n: nat)
    ensures n < |AllPhases| && AllPhases[n] == p
  {
    match p
    case Initialise => 0
    case SetOperatingParameters => 1
    case FinalizeOperatingParameters => 2
    case SpawnThreads => 3
    case TellThreadsGo => 4
    case MonitorThreads => 5
    case SeeThreadsStop => 6
    case SeeBatchEnd => 7
    case Finalize => 8
  }

  /** `CalculationPhases(n)`: the member whose value is n. */
  function FromOrdinal(n: nat): (p: CalculationPhase)
    requires n < |AllPhases|
    ensures Ordinal(p) == n
  {
    AllPhases[n]
  }

  /** Distinct members have distinct values. */
  lemma OrdinalInjective(p: CalculationPhase, q: CalculationPhase)
    requires Ordinal(p) == Ordinal(q)
    ensures p == q
  {
  }

  /** `p < q` on the IntEnum members. */
  predicate Before(p: CalculationPhase, q: CalculationPhase) {
    Ordinal(p) < Ordinal(q)
  }

  /** CalculationPhases.start(): the member with value 0. */
  function Start(): (p: CalculationPhase)
    ensures Ordinal(p) == 0 && forall q :: q != p ==> Before(p, q)
  {
    FromOrdinal(0)
  }

  /** has_ended: the phase is FINALIZE. */
  predicate HasEnded(p: CalculationPhase) {
    p == Finalize
  }

  /** FINALIZE is the latest phase; every other phase comes before it. */
  lemma HasEndedIsLast(p: CalculationPhase)
    ensures HasEnded(p) <==> forall q :: !Before(p, q)
  {
    if !HasEnded(p) {
      assert Before(p, Finalize);
    }
  }

  /** next_phase: the member with the next value, and FINALIZE again after FINALIZE. */
  function NextPhase(p: CalculationPhase): (q: CalculationPhase)
    ensures q == p <==> HasEnded(p)
    ensures !HasEnded(p) ==> Ordinal(q) == Ordinal(p) + 1
  {
    if HasEnded(p) then p else FromOrdinal(Ordinal(p) + 1)
  }

  /** No phase lies strictly between a phase and its successor. */
  lemma NextPhaseIsImmediate(p: CalculationPhase, r: CalculationPhase)
    requires !HasEnded(p) && Before(p, r)
    ensures NextPhase(p) == r || Before(NextPhase(p), r)
  {
    if Ordinal(r) == Ordinal(p) + 1 {
      OrdinalInjective(NextPhase(p), r);
    }
  }

  /** next_phase applied k times. */
  function Advance(p: CalculationPhase, k: nat): CalculationPhase
    decreases k
  {
    if k == 0 then p else Advance(NextPhase(p), k - 1)
  }

  /** From any phase, k steps go k values up, and stop at FINALIZE. */
  lemma {:induction false} AdvanceOrdinal(p: CalculationPhase, k: nat)
    ensures Ordinal(Advance(p, k)) == if Ordinal(p) + k < 8 then Ordinal(p) + k else 8
    decreases k
  {
    if k > 0 {
      AdvanceOrdinal(NextPhase(p), k - 1);
    }
  }

  /** Eight steps from the start always end the sequence. */
  lemma StartReachesFinalize()
    ensures Advance(Start(), 8) == Finalize
    ensures forall k :: 0 <= k < 8 ==> !HasEnded(Advance(Start(), k))
  {
    AdvanceOrdinal(Start(), 8);
    forall k | 0 <= k < 8 ensures !HasEnded(Advance(Start(), k)) {
      AdvanceOrdinal(Start(), k);
    }
  }

  /**
   * The module-level numbering of core.py: one counter from 0 numbers the
   * nine CalculationPhases members, `advance_id(-next_id())` rewinds it, and
   * the six RunParallelPhases members are numbered after that, from 1.
   */
  method NumberEnumerations() returns (calculation: seq<int>, runParallel: seq<int>)
    ensures |calculation| == |AllPhases|
    ensures forall i :: 0 <= i < |AllPhases| ==> calculation[i] == Ordinal(AllPhases[i])
    ensures runParallel == [1, 2, 3, 4, 5, 6]
  {
    var ids := new IdSmuggler(0);
    calculation := TakeIds(ids, |AllPhases|);
    Rewind(ids);
    runParallel := TakeIds(ids, 6);
  }
}
