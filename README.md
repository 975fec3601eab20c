# Python utilities: parallel executor, money strings, number theory, switch

This project models parts of a collection of Python utilities and proves properties of the model:

- The `Parallelism` executor of `parallelism/parallel/core.py`:
  - its linear `CalculationPhases` enum;
  - the `Cycle` / `BatchExecutionOrder` batch sequencers;
  - the phase-gated methods that configure the executor and drive one batch of worker threads after another.
- The `IdSmugglerBase` and `IDs` counters of `parallelism/parallel/ids.py`.
- From `simple_tools/money.py`:
  - the formal dollar string reader `is_money` and writer `to_money`, and `digits_money`;
  - the `is_error` classifiers;
  - the checks of `is_percentage`.
- From `simple_tools/numbers.py`:
  - Euclid's `gcf` and trial-division `is_prime_primitive`;
  - `factorial_primitive` and the digit-pair square root `better_isqrt`;
  - the bitwise n-th root `better_root`, the bracket test `is_sqrt`, and `primitive_period`.
- The C-style `switch_flat` / `switch` of `simple_tools/switch.py`.
- From `simple_tools/a_collect.py`: `file_named`, `is_within_bounds`, `get_pad_length`, `pad_value_int` and `int_suffix`.
- `fields_to_fill` of `simple_tools/remember.py`.

Modules:

- `Runtime`:
  - the Python exceptions that matter here;
  - `Result` (a value or a raised exception);
  - `Option` (None or a value);
  - `Attr` (an attribute that is only annotated, and so raises AttributeError until it is assigned).
- `Text`: `str(int)`, `int(str)` of digit strings, and reversal.
- `Ids`: `IdSmugglerBase` as the class `IdSmuggler`, and `IDs` as `LockedIds`.
- `Phases`: `CalculationPhases`.
- `Sequencer`: `Cycle` and `BatchExecutionOrder`.
- `Dicts`: Python dicts, as insertion-ordered association lists.
- `Parallel`: `Parallelism`.
- `Money`, `Numbers`, `Switch`, `Collect`, `Remember`: one each for the source file of that name.

Objects whose fields the Python code updates are Dafny classes. Their methods state the whole new state:

- `IdSmuggler` and `LockedIds`;
- `Cycle` and `BatchExecutionOrder`;
- `Parallelism`, whose fields are gathered in a `State` snapshot so that "nothing else changes" is one equation;
- the list `fields_to_fill` extends.

Loops of the source are Dafny loops with their invariants:

- `gcf`, `factorial_primitive`, `better_isqrt`, `better_root` and `primitive_period`;
- the scanning loop of `is_money`, and the comma loop of `to_money`;
- `switch_flat` and `convert`.

Each loop is proved against a specification function, and the lemmas state what that function means:

- a number-theoretic characterisation;
- a grammar;
- a round trip;
- a reference definition at the level of groups.

Money amounts are exact integers of cents. Callables passed to `switch` are opaque tokens, and calling one yields a value that records the call.

## Model

| member | source | states |
|---|---|---|
| Ids.IdSmuggler.constructor | parallelism/parallel/ids.py:12-17 | the first ID pending is the starting point |
| Ids.IdSmuggler.GetId | parallelism/parallel/ids.py:19-24 | returns the pending ID and changes nothing |
| Ids.IdSmuggler.NextId | parallelism/parallel/ids.py:26-33 | returns the pending ID and raises it by exactly one |
| Ids.IdSmuggler.AdvanceId | parallelism/parallel/ids.py:35-42 | adds n to the pending ID, n negative included |
| Ids.TakeIds | parallelism/parallel/ids.py:26-33 | k successive next_id calls return start, start+1, …, start+k-1 and leave start+k pending |
| Ids.Rewind | parallelism/parallel/core.py:629 | `advance_id(-next_id())` always leaves the counter at 1, whatever its value before |
| Ids.LockedIds.constructor | parallelism/parallel/ids.py:48-50 | starts at the starting point with the lock free |
| Ids.LockedIds.GetId | parallelism/parallel/ids.py:52-57 | returns the pending ID and changes nothing |
| Ids.LockedIds.AdvanceId | parallelism/parallel/ids.py:66-69 | with the lock free, adds n and frees the lock again; with the lock already held, blocks for ever and changes nothing |
| Ids.LockedIds.NextIdAsWritten | parallelism/parallel/ids.py:59-64 | as written, next_id holds the lock while the base next_id calls the overriding advance_id, so it never returns and the counter is unchanged |
| Ids.LockedIds.NextId | parallelism/parallel/ids.py:59-64 | corrected: returns the pending ID, raises it by one and frees the lock |
| Ids.FirstNextIdHangs | parallelism/parallel/ids.py:59-69 | the very first next_id on a fresh IDs hangs, where IdSmugglerBase returns the starting point |
| Ids.SameIdsAsBase | parallelism/parallel/ids.py:45-69 | with the corrected next_id, IDs hands out the same k IDs as IdSmugglerBase: start, start+1, … |
| Phases.Ordinal | parallelism/parallel/core.py:15-33 | each phase's integer value is its position in the declaration |
| Phases.FromOrdinal | parallelism/parallel/core.py:15-33 | `CalculationPhases(n)` gives the phase whose value is n, for n in 0..8 |
| Phases.OrdinalInjective | parallelism/parallel/core.py:14-15 | no two phases share a value (the enum is @unique) |
| Phases.Start | parallelism/parallel/core.py:36-41 | start() is the phase with value 0, which comes before every other phase |
| Phases.HasEnded | parallelism/parallel/core.py:43-48 | has_ended: the phase is FINALIZE; what that means in the order of phases is stated by HasEndedIsLast |
| Phases.HasEndedIsLast | parallelism/parallel/core.py:43-48 | has_ended holds exactly for the phase that no phase comes after (FINALIZE) |
| Phases.NextPhase | parallelism/parallel/core.py:50-55 | next_phase is its argument exactly when that has ended, and otherwise the phase with the next value |
| Phases.NextPhaseIsImmediate | parallelism/parallel/core.py:50-55 | no phase lies strictly between a phase and its next phase |
| Phases.AdvanceOrdinal | parallelism/parallel/core.py:50-55 | k steps of next_phase add k to the value, stopping at FINALIZE |
| Phases.StartReachesFinalize | parallelism/parallel/core.py:36-55 | from start(), exactly eight steps reach FINALIZE, and none of the first eight phases has ended |
| Phases.NumberEnumerations | parallelism/parallel/core.py:629-646 | the shared counter numbers CalculationPhases 0..8, and after the reset RunParallelPhases 1..6 |
| Sequencer.CycleStep | parallelism/parallel/core.py:116-126 | one draw moves the placeholder to the next item and yields it. Past the end with give_stop it raises RuntimeError; without give_stop it starts over from the first item, and an empty list gives RecursionError |
| Sequencer.Cycle.constructor | parallelism/parallel/core.py:128-135 | holds the iterable with placeholder -1 |
| Sequencer.Cycle.GiveIterable | parallelism/parallel/core.py:137-145 | replaces the iterable and resets the placeholder to -1 |
| Sequencer.Cycle.RetrieveIterable | parallelism/parallel/core.py:147-154 | returns the iterable held |
| Sequencer.Cycle.GetIteration | parallelism/parallel/core.py:167-170 | returns the placeholder |
| Sequencer.Cycle.Next | parallelism/parallel/core.py:156-165 | the value and the new placeholder are one CycleStep; the iterable is unchanged |
| Sequencer.CycleWrapsAround | parallelism/parallel/core.py:116-126 | without give_stop, the k-th draw from a fresh cycle over a non-empty list is item `k mod n` |
| Sequencer.BatchExecutionOrder.constructor | parallelism/parallel/core.py:184-194 | holds the iterable with placeholder -1, the ending point, and a quota of 0 |
| Sequencer.BatchExecutionOrder.GetEndingPoint | parallelism/parallel/core.py:196-202 | returns the ending point |
| Sequencer.BatchExecutionOrder.GetQuota | parallelism/parallel/core.py:204-209 | returns the number of draws so far |
| Sequencer.BatchExecutionOrder.GiveIterable | parallelism/parallel/core.py:214-216 | replaces the iterable and resets the quota to 0 and the placeholder to -1; the ending point stays |
| Sequencer.BatchExecutionOrder.RetrieveIterable | parallelism/parallel/core.py:218-219 | returns the iterable held |
| Sequencer.BatchExecutionOrder.GetIteration | parallelism/parallel/core.py:233-234 | returns the placeholder |
| Sequencer.BatchExecutionOrder.IsQuotaMeet | parallelism/parallel/core.py:226-231 | holds exactly when the ending point is at most the quota |
| Sequencer.BatchExecutionOrder.FullNext | parallelism/parallel/core.py:236-242 | raises the quota by exactly one, even when the draw raises; the draw is one CycleStep; iterable and ending point are unchanged |
| Sequencer.DefaultOrderRun | parallelism/parallel/core.py:430-431 | the default order over range(n) yields 0, 1, …, n-1; its quota is met before any draw only when n = 0, and after the k-th draw exactly when k = n; one more draw raises RuntimeError |
| Dicts.KeyIndex | parallelism/parallel/core.py:570-572 | the position of a key is the first, and only, entry holding it |
| Dicts.KeyIndexUnique | parallelism/parallel/core.py:570-572 | in a dict each entry's key leads back to that entry |
| Dicts.Get | parallelism/parallel/core.py:570-572 | `d.get(k, default)`: the default for a missing key, otherwise the value stored under k |
| Dicts.Put | parallelism/parallel/core.py:462-464 | `d[k] = v` adds an entry exactly when k is new |
| Dicts.PutKeepsOrder | parallelism/parallel/core.py:462-464 | storing keeps the keys unique and in their order, and puts a new key last |
| Dicts.GetPut | parallelism/parallel/core.py:462-464 | reading after storing gives the stored value for that key and the old one for every other key |
| Parallel.Parallelism.constructor | parallelism/parallel/core.py:266-272 | starts in INITIALISE, or after start() when start_now; nothing is configured yet |
| Parallel.Parallelism.Start | parallelism/parallel/core.py:280-292 | succeeds exactly in INITIALISE. It zeroes batches and slots, empties the results and moves to SET_OPERATING_PARAMETERS; otherwise nothing changes |
| Parallel.Parallelism.SetNumberOfBatches | parallelism/parallel/core.py:296-307 | writes batches exactly in SET_OPERATING_PARAMETERS; otherwise nothing changes |
| Parallel.Parallelism.GetBatches | parallelism/parallel/core.py:309-315 | the batch count, or AttributeError before start() assigned it |
| Parallel.Parallelism.SetNumberOfSlots | parallelism/parallel/core.py:317-328 | writes slots exactly in SET_OPERATING_PARAMETERS; otherwise nothing changes |
| Parallel.Parallelism.GetSlots | parallelism/parallel/core.py:330-336 | the slot count, or AttributeError before start() assigned it |
| Parallel.Parallelism.GenerateBatchesAndSlots | parallelism/parallel/core.py:338-348 | advances the phase exactly in SET_OPERATING_PARAMETERS with batches > 0 and slots > 0; otherwise nothing changes |
| Parallel.Parallelism.SetExecutor | parallelism/parallel/core.py:370-381 | stores the executor exactly in FINALIZE_OPERATING_PARAMETERS; otherwise nothing changes |
| Parallel.Parallelism.HasExecutor | parallelism/parallel/core.py:383-393 | False before FINALIZE_OPERATING_PARAMETERS; in it, whether an executor is set (AttributeError if none was ever assigned); True after it |
| Parallel.Parallelism.SetBatchExecutionOrder | parallelism/parallel/core.py:397-408 | stores the order, None included, exactly in FINALIZE_OPERATING_PARAMETERS; otherwise nothing changes |
| Parallel.Parallelism.HasBatchExecutionOrder | parallelism/parallel/core.py:410-420 | False before FINALIZE_OPERATING_PARAMETERS; in it, whether an order is set (AttributeError if never assigned); True after it |
| Parallel.Parallelism.PrepareToSpawnThread | parallelism/parallel/core.py:422-447 | succeeds exactly in FINALIZE_OPERATING_PARAMETERS with an executor and an assigned order. A None order becomes a fresh order over range(batches) with quota batches; all counters and the current batch become 0; the read-write lock is new and free; the phase becomes SPAWN_THREADS. The AttributeError cases are exact; a failure changes nothing |
| Parallel.Parallelism.SpawnThreadsAsWritten | parallelism/parallel/core.py:479-501 | 0 and no change outside SPAWN_THREADS. With the quota met: FINALIZE and 2. Otherwise: one full_next, an empty results dict installed for the drawn batch, and 1, with the thread counters left as they were |
| Parallel.Parallelism.SpawnThreads | parallelism/parallel/core.py:479-501 | corrected: the same, except that starting a batch also zeroes the three thread counters |
| Parallel.Parallelism.ThreadReady | parallelism/parallel/core.py:454-456 | a worker counts itself as started; nothing else changes |
| Parallel.Parallelism.ThreadReturned | parallelism/parallel/core.py:459-468 | a worker's value other than None is stored under its slot in the current batch's dict, which the results map shares, once the read-write lock is free; the stopped count goes up by one |
| Parallel.Parallelism.ThreadEnded | parallelism/parallel/core.py:470-474 | a worker counts itself as ended; nothing else changes |
| Parallel.Parallelism.PrepareToInvokeCalls | parallelism/parallel/core.py:503-520 | 0 outside SPAWN_THREADS. 2, advancing to TELL_THREADS_GO, when every slot has started. 1 otherwise, with no change |
| Parallel.Parallelism.BeginAllInvocations | parallelism/parallel/core.py:524-536 | succeeds exactly in TELL_THREADS_GO: monitoring off, phase MONITOR_THREADS |
| Parallel.Parallelism.TurnMonitoringOnAsWritten | parallelism/parallel/core.py:539-557 | as written: turning on an inactive session sets the flag and leaves the read-write lock held; turning off an active session changes nothing and returns True; turning off with no session frees the lock if it is held and returns True, and raises RuntimeError if it is free; outside MONITOR_THREADS False and no change |
| Parallel.Parallelism.TurnMonitoringOn | parallelism/parallel/core.py:539-557 | corrected: in MONITOR_THREADS the flag becomes the request; turning on takes the lock, turning off an active session frees it; it fails only when turning on an active session; in other phases it fails with no change |
| Parallel.Parallelism.IsMonitoringTurnedOnAsWritten | parallelism/parallel/core.py:559-568 | as written: False outside MONITOR_THREADS; in it, the call waits exactly while the read-write lock is held and otherwise returns the flag; it never returns True |
| Parallel.Parallelism.IsMonitoringTurnedOn | parallelism/parallel/core.py:559-568 | as the docstring says: holds exactly in MONITOR_THREADS with monitoring on |
| Parallel.Parallelism.Get | parallelism/parallel/core.py:570-572 | the value a worker stored for the slot, 0 for a slot without one, and AttributeError before any batch |
| Parallel.Parallelism.IndexSlotFromValue | parallelism/parallel/core.py:574-579 | the slot of the first entry with that value, in insertion order; -1 if none; AttributeError before any batch |
| Parallel.Matching | parallelism/parallel/core.py:581-586 | the generator find_things: the entries of the dict whose value is in the set, in insertion order; MatchingMembers states which entries these are, CollectMatching computes them with the loop |
| Parallel.MatchingMembers | parallelism/parallel/core.py:581-586 | the entries find_things yields are exactly those whose value is in the set |
| Parallel.CollectMatching | parallelism/parallel/core.py:581-586 | the loop over the dict collects the matching entries in order |
| Parallel.Parallelism.FindThings | parallelism/parallel/core.py:581-586 | the matching entries in order, then (-1, 0) |
| Parallel.Parallelism.ConcludeThreads | parallelism/parallel/core.py:592-603 | 0 outside MONITOR_THREADS. 2, advancing to SEE_THREADS_STOP, when every slot has stopped. 1 otherwise |
| Parallel.Parallelism.FinalizeBatch | parallelism/parallel/core.py:607-616 | succeeds exactly in SEE_THREADS_STOP once every slot has ended. An empty batch dict is deleted from the results (KeyError if already gone); the phase becomes SPAWN_THREADS or SEE_BATCH_END; otherwise nothing changes |
| Parallel.Parallelism.CountBatchResults | parallelism/parallel/core.py:618-622 | the size of the current batch's dict in SEE_THREADS_STOP, otherwise None |
| Parallel.Configure | parallelism/parallel/core.py:422-447 | an executor configured for two batches of one slot, ready in SPAWN_THREADS |
| Parallel.StartFirstBatch | parallelism/parallel/core.py:479-536 | spawning batch 0 and letting its one worker start reaches MONITOR_THREADS |
| Parallel.EndFirstBatch | parallelism/parallel/core.py:592-616 | the worker's value 7 is recorded, and batch 0 is finalized back to SPAWN_THREADS |
| Parallel.SecondBatchReadiness | parallelism/parallel/core.py:440-442 | as written, batch 1 is reported fully spawned (2, TELL_THREADS_GO) before its worker started; with the counters reset it reports 1 |
| Parallel.Spawn | parallelism/parallel/core.py:479-501 | spawn_threads, as written or corrected, by a flag |
| Money.ScanDollars | simple_tools/money.py:211-223 | the loop collects only digits, and its errors are the three the loop can return |
| Money.ScanDollarPart | simple_tools/money.py:209-223 | the loop over the reversed dollar part equals the scan from place 0 |
| Money.ParseMoney | simple_tools/money.py:191-206 | a failure never reports NO_ERROR, and every string shorter than 6 is TOO_SHORT |
| Money.IsMoney | simple_tools/money.py:177-227 | is_money, popping and scanning the reversed list, is ParseMoney |
| Money.ScanAcceptsGrouped | simple_tools/money.py:213-223 | the scan succeeds exactly when every fourth character is a comma and the rest are digits |
| Money.ScanCollectsDigits | simple_tools/money.py:213-223 | a successful scan collects the dollar digits in reading order, commas dropped |
| Money.ScanDollarsGrammar | simple_tools/money.py:209-223 | both of the above at once |
| Money.ParseMoneyGrammar | simple_tools/money.py:191-227 | is_money gives an amount exactly for the formal format. The amount is the dollar digits, commas dropped, then the two cent digits, negated exactly for '-' |
| Money.TwoDigits | simple_tools/money.py:243 | two digits that read back as the cents |
| Money.FormatMoney | simple_tools/money.py:230-243 | to_money on whole cents: sign, '$', the dollars with commas, '.', two cent digits; FormatMoneyParts states that shape and MoneyRoundTrip that is_money reads it back |
| Money.ToMoney | simple_tools/money.py:230-243 | the comma-inserting loop over the reversed dollar digits produces FormatMoney |
| Money.InsertCommas | simple_tools/money.py:239-242 | a comma after every three digits of the reversed dollars; InsertCommasLength and InsertCommasGrammar state how many commas and where |
| Money.InsertionStep | simple_tools/money.py:240-242 | each pass of the loop puts the comma just before the next group of three original digits |
| Money.InsertCommasLength | simple_tools/money.py:240-242 | one comma per full group of three after the first digit |
| Money.InsertCommasGrammar | simple_tools/money.py:240-242 | the inserted commas are exactly the ones the reader expects, and dropping them gives the digits back |
| Money.DigitsMoney | simple_tools/money.py:246-254 | digits_money: 5 + t + (t - 1) // 3 for t dollar digits; DigitsMoneyIsLength states that this is the length of to_money |
| Money.DigitsMoneyIsLength | simple_tools/money.py:246-254 | digits_money(v) is the length of to_money(v) |
| Money.FormatMoneyParts | simple_tools/money.py:236-243 | to_money writes: the sign, '$', the grouped dollars, '.', two cent digits |
| Money.MoneyRoundTrip | simple_tools/money.py:191-243 | reading what to_money writes gives back the same amount of cents |
| Money.RoundTripOf | simple_tools/money.py:191-227 | any string with the parts of to_money's output reads back as that amount |
| Money.ParseMoneyOfParts | simple_tools/money.py:207-227 | once all checks pass, the amount is the collected dollars and the cents, signed |
| Money.IsErrorAsWritten | simple_tools/money.py:118-123 | is_error as written, with the int test first; IsErrorAsWrittenMissesErrors states its consequence |
| Money.IsErrorAsWrittenMissesErrors | simple_tools/money.py:118-123 | as written, is_error is False for every value, the TOO_SHORT that is_money("") returns included, because IntEnum members are ints |
| Money.IsError | simple_tools/money.py:110-124 | is_error as its docstring says: numbers are never errors, members other than NO_ERROR always are; IsErrorClassifiesParse states it on is_money's results |
| Money.IsErrorClassifiesParse | simple_tools/money.py:110-124 | corrected: is_error holds for what is_money returns exactly when that is a failure |
| Money.PercentChecks | simple_tools/money.py:272-279 | the checks pass exactly for: length at least 5, a sign first, '%' last, and a '.' present; shorter strings are TOO_SHORT |
| Money.IsPercentageAsWritten | simple_tools/money.py:260-283 | as written, it raises ValueError exactly when the checks pass and the middle is not a float |
| Money.MalformationNeverReported | simple_tools/money.py:280-283 | as written, MALFORMATION_IN_FLOAT is never returned, and "+x.y%" raises ValueError |
| Money.IsPercentage | simple_tools/money.py:260-283 | corrected: MALFORMATION_IN_FLOAT exactly when the checks pass and the middle is not a float; otherwise the value, negated for '-' |
| Money.IsPercentageAgrees | simple_tools/money.py:260-283 | wherever the code as written returns, it returns what the corrected one does |
| Numbers.PyMod | simple_tools/numbers.py:34 | Python's `%`: the remainder takes the divisor's sign and completes floor division |
| Numbers.EuclidLoop | simple_tools/numbers.py:33-37 | the while loop of gcf with Python's %; EuclidLoopIsGcd states what it ends with |
| Numbers.EuclidGcf | simple_tools/numbers.py:24-37 | gcf: swap so that a <= b, then Euclid's loop; Gcf, GcfSymmetric and GcfOfWholeNumbers state its meaning |
| Numbers.EuclidLoopIsGcd | simple_tools/numbers.py:33-37 | Euclid's loop ends with a common divisor that every common divisor divides |
| Numbers.GcfSymmetric | simple_tools/numbers.py:31-32 | because of the swap, gcf(a, b) == gcf(b, a) |
| Numbers.GcfOfWholeNumbers | simple_tools/numbers.py:24-37 | for whole numbers the result is non-negative, and 0 only for gcf(0, 0) |
| Numbers.Gcf | simple_tools/numbers.py:24-37 | the loop divides both a and b, and every common divisor divides it |
| Numbers.IsSqrt | simple_tools/numbers.py:158-165 | is_sqrt: root_candidate² <= square < (root_candidate + 1)²; IsSqrtUnique and TestSqrtExpectation state what that test accepts |
| Numbers.IsSqrtUnique | simple_tools/numbers.py:158-165 | at most one integer passes the bracket test, and it is non-negative |
| Numbers.TestSqrtExpectation | simple_tools/numbers.py:152-155 | for j from i*i up to (i+1)*(i+1), the bracket test accepts i and nothing else |
| Numbers.Isqrt | simple_tools/numbers.py:49 | `floor(sqrt(x))` computed exactly, passing the bracket test |
| Numbers.IsPrimePrimitive | simple_tools/numbers.py:40-49 | is_prime_primitive: x >= 2 and no divisor in 2..isqrt(x); IsPrimePrimitiveCorrect states that this is primality |
| Numbers.IsPrimePrimitiveCorrect | simple_tools/numbers.py:40-49 | trial division up to the square root holds exactly for the primes |
| Numbers.Factorial | simple_tools/numbers.py:52-61 | x! is at least 1 |
| Numbers.FactorialDivisible | simple_tools/numbers.py:52-61 | every k from 1 to x divides x! |
| Numbers.FactorialPrimitive | simple_tools/numbers.py:52-61 | the accumulator loop computes x!, and 1 for x <= 0 |
| Numbers.FitDigit | simple_tools/numbers.py:106-115 | the inner loop finds the largest digit whose trial product fits in the remainder |
| Numbers.NextRootDigit | simple_tools/numbers.py:105-118 | after each pair of digits, the root so far squared plus the remainder is the number read so far, with the remainder at most twice the root |
| Numbers.PaddedDecimal | simple_tools/numbers.py:98-100 | str(i) with a leading '0' when needed: an even number of digits with value i |
| Numbers.BetterIsqrt | simple_tools/numbers.py:91-119 | ValueError exactly for negative input; otherwise the result passes is_sqrt |
| Numbers.StartingBitSuffices | simple_tools/numbers.py:142 | the starting bit `1 << (1 + x.bit_length() // root)` is large enough to overshoot the root |
| Numbers.RootSearchStep | simple_tools/numbers.py:143-148 | one pass keeps the root at most x's root, keeps twice the bit above it, and halves the bit or raises the root |
| Numbers.BetterRoot | simple_tools/numbers.py:139-149 | for x >= 0 the result r has `r ** root <= x < (r+1) ** root`; for x < 0 it is 0 |
| Numbers.PrimitivePeriod | simple_tools/numbers.py:7-21 | 0 when base == modulo; ValueError for a zero modulo; otherwise the least p >= 1 with pow(base, p, modulo) == remainder |
| Switch.Apply | simple_tools/switch.py:80-87 | a dict is passed as keywords, another iterable spread out, anything else as one argument |
| Switch.BaseCase | simple_tools/switch.py:97-103 | the default if given, else the error handler if given, else None |
| Switch.FlatFrom | simple_tools/switch.py:75-96 | the only exception that escapes the scan is ValueError |
| Switch.SwitchFlatSpec | simple_tools/switch.py:68-73 | an empty stream goes straight to the base case |
| Switch.SwitchFlat | simple_tools/switch.py:5-103 | the loop over one shared iterator computes the scan over the stream |
| Switch.MatchIgnoresRest | simple_tools/switch.py:79-89 | once a case has matched, nothing after it is read |
| Switch.GroupItems | simple_tools/switch.py:134-139 | a group too short for its pair or trio raises IndexError |
| Switch.Flatten | simple_tools/switch.py:134-139 | the only exception flattening raises is IndexError |
| Switch.ConvertAsWritten | simple_tools/switch.py:130-141 | as written, convert on no arguments raises RuntimeError |
| Switch.Convert | simple_tools/switch.py:130-139 | the generator loop yields what ConvertAsWritten describes |
| Switch.SwitchAsWritten | simple_tools/switch.py:106-141 | switch as written: convert the arguments, then switch_flat; EmptySwitchRaises states its empty case |
| Switch.EmptySwitchRaises | simple_tools/switch.py:133 | switch() raises RuntimeError, where switch_flat() with nothing runs the base case |
| Switch.ConvertArgs | simple_tools/switch.py:130-141 | corrected: no arguments give the empty stream; otherwise the same as written |
| Switch.Switch | simple_tools/switch.py:106-141 | switch with the empty call corrected; EmptySwitchRunsBaseCase, SwitchAgreesWithAsWritten and SwitchIsGroupSwitch state its meaning |
| Switch.EmptySwitchRunsBaseCase | simple_tools/switch.py:130-141 | corrected: switch() with no arguments runs the base case, as switch_flat() does |
| Switch.SwitchAgreesWithAsWritten | simple_tools/switch.py:130-141 | the corrected switch gives what the code as written gives whenever there are arguments, and whenever the code as written returns |
| Switch.GroupSwitchFirstMatch | simple_tools/switch.py:75-92 | the first group whose case equals the switch value decides; with none, the base case |
| Switch.FlattenWellFormed | simple_tools/switch.py:134-139 | flattening succeeds exactly when every group is a pair or a trio |
| Switch.FlatFromGroups | simple_tools/switch.py:75-103 | on flattened groups, the flat scan is the first-match rule over groups: a mismatched constant skips its pair, a mismatched callable its trio |
| Switch.SwitchIsGroupSwitch | simple_tools/switch.py:106-141 | switch raises exactly when some group is malformed; otherwise it is the first-match rule over the groups |
| Collect.FileNamed | simple_tools/a_collect.py:11-17 | ".out.txt" for 0, otherwise ".out", then str(file), then ".txt" |
| Collect.FileNamedInjective | simple_tools/a_collect.py:11-17 | different files get different names |
| Collect.IsWithinBounds | simple_tools/a_collect.py:123-139 | holds exactly when the candidate is at least the minimum and at most the maximum, a None bound being no bound |
| Collect.GetPadLength | simple_tools/a_collect.py:208-214 | the length of str(v) |
| Collect.GetPadLengthCountsDigits | simple_tools/a_collect.py:208-214 | that length is the count of decimal digits of v, plus one for the '-' of a negative v |
| Collect.RJust | simple_tools/a_collect.py:239 | `s.rjust(width, c)`: length max(width, len(s)), ending in s, the prefix all c |
| Collect.PadValueInt | simple_tools/a_collect.py:231-239 | TypeError unless pad_char is one character. Otherwise: length max(pad, len(str(value))), ending in str(value), prefix all pad_char |
| Collect.PadValueIntInjective | simple_tools/a_collect.py:231-239 | with a pad character that is not a digit or '-', the padded text determines the value |
| Collect.IntSuffix | simple_tools/a_collect.py:256-272 | int_suffix read off str(x) as the source does; IntSuffixByValue states the ordinal rule it follows |
| Collect.IntSuffixByValue | simple_tools/a_collect.py:256-272 | int_suffix(x), read off str(x), is 'th' for 11 to 13 mod 100 and otherwise 'st', 'nd', 'rd' or 'th' by the last digit, counted on abs(x) |
| Remember.Filled | simple_tools/remember.py:634-636 | the result is as long as the list or expected_length, whichever is larger; it keeps the list as its prefix; every added element is the fill value |
| Remember.FilledLongEnough | simple_tools/remember.py:634-636 | a list already long enough is unchanged |
| Remember.FilledIdempotent | simple_tools/remember.py:634-636 | filling twice is the same as filling once |
| Remember.ListRef.FieldsToFill | simple_tools/remember.py:634-636 | the list is extended in place to Filled of its old contents |
| Remember.FillShared | simple_tools/remember.py:634-636 | the caller's reference to the list sees the extension: the list filled with the fill values |

## Left out

- Threads, Events and locks in `parallelism/parallel/core.py`:
  - no threads are spawned;
  - the worker's three state changes are the methods ThreadReady, ThreadReturned and ThreadEnded, which may be called in any order between the main thread's calls;
  - waiting on an Event is not modelled. Of the locks, only `_read_write_lock` is modelled, as a flag saying whether it is held; a worker's write takes and frees it in one step;
  - after each `with Mutex(...)` block, `Mutex.__del__` releases the lock a second time; that release fails on a free lock and the failure is swallowed, so the model leaves it out.
- `Runner.run` / `Runner.end` and `filter` in `parallelism/parallel/core.py`: foreign callables; a worker's result is a parameter.
- `run_parallel` in `parallelism/parallel/core.py`: a sleep-polling generator over the methods above. It is not modelled.
- `parallelism/parallel/multithreading.py`, `simple_tools/reporter.py`: thread utilities, left out.
- Ids.LockedIds: the model is sequential. The constructor leaves the lock free, and GetId, NextIdAsWritten and NextId require it to be free on entry, which is how a single thread finds it between calls. AdvanceId, which next_id reaches with the lock held, takes a held lock as a hang. Contention between threads is not modelled.
- Sequencer.Cycle: the iterable is a finite list. A one-shot iterator, or one whose `iter()` does not start afresh, is not modelled.
- Money amounts are integer cents, not floats. Three consequences:
  - `is_money`'s float result, and its `-0.0`, become integer cents;
  - `to_money`'s `str(round(abs(value), 2))` is not modelled, including the exponent notation Python uses for very large or small floats;
  - `to_money` is modelled for whole cents only.
- `compound_interest`, `simple_interest`, `to_percentage` and `digits_percentage` in `simple_tools/money.py`: floating point.
- `simple_tools/money.py` also has these, not modelled:
  - the `float()` conversion in `is_percentage`: it is an input, giving the float or nothing;
  - the `longest()` constants: a hard-coded string length;
  - the duplicate `Cycle` and `IdSmugglerBase`: copies of the core.py and ids.py classes.
- A leading comma: is_money also accepts one ("+$,123.00"), which to_money never writes; the model follows the code.
- `product`, `product_mean_deviance` and `better_fsqrt` in `simple_tools/numbers.py`: floating point.
- Numbers.IsPrimePrimitive: uses an exact integer square root, where the source uses `floor(sqrt(x))` in floats. The two differ only for numbers too large for a double.
- Numbers.BetterRoot: requires root >= 1. A root of 0 raises ZeroDivisionError. With a negative root, `1 << (1 + x.bit_length() // root)` raises ValueError when that shift count is negative (`better_root(2, -1)`). Otherwise `new_root ** root` is a positive float of at most 1. For x >= 1 the test then never halves the bit, and the root grows by it on every pass, without end until the conversion to float overflows (`better_root(1, -1)`). For x <= 0 the test always halves the bit, and the result is 0 (`better_root(0, -1)`, `better_root(-1, -1)`).
- Numbers.PrimitivePeriod: needs a known period (a ghost bound) where the source may loop for ever.
- `get_pad_length_int`, `get_pad_length_abs`, `pad_value_float` and `get_pad_lengths_float` in `simple_tools/a_collect.py`: floating point (log10).
- `output`, `out_sort`, the `get_input*` functions, `get_seed` and `stop` in `simple_tools/a_collect.py`: file and console I/O.
- Collect.IsWithinBounds: models the asserts as executed; under `python -O` they are stripped and every candidate is accepted.
- Remember.Filled: `[fill_value] * n` puts the same object in every new slot; with values instead of references, the model cannot show that sharing.
- The `Memory` class, `modify_recalled_parameter` and `fields_to_recall` in `simple_tools/remember.py`: file I/O, `input` and reflection.
- `simple_tools/xrange.py` and `replacer.py`: xrange.py works in floats; replacer.py is an interactive, unfinished script.
- Switch: it has these limits:
  - callables are opaque tokens, and calling them is a recorded Outcome, so exceptions raised inside them and their side effects are not modelled;
  - the items are constants, callables, dicts and lists; a string or other iterable used as a case value is not modelled;
  - equality is that of the model's items.
- `SwitchTests` in `simple_tools/switch.py`: it only prints.

## Findings

| source | as written | input that shows it | evidently intended | confidence | as-written member | corrected member |
|---|---|---|---|---|---|---|
| simple_tools/money.py:118-123 | `isinstance(x, int)` comes first, and IntEnum members are ints, so `is_error` is False for every error member | `MoneyParsingErrors.is_error(is_money(""))`, which is `is_error(TOO_SHORT)`, gives False | True for every member but NO_ERROR, as the docstring says | not executed | Money.IsErrorAsWrittenMissesErrors | Money.IsErrorClassifiesParse |
| simple_tools/money.py:280-283 | catches IndexError, but `float()` raises ValueError, so MALFORMATION_IN_FLOAT is unreachable and ValueError escapes | `is_percentage("+x.y%")` raises ValueError | return MALFORMATION_IN_FLOAT | not executed | Money.MalformationNeverReported | Money.IsPercentage |
| simple_tools/switch.py:133 | `next()` on empty input inside the generator `convert` becomes RuntimeError (PEP 479) | `switch()` raises RuntimeError | run the base case, as `switch_flat()` does | not executed | Switch.EmptySwitchRaises | Switch.EmptySwitchRunsBaseCase |
| parallelism/parallel/core.py:552-554 | `elif not self._monitoring` runs only when monitoring is already off. So turning off an active session never clears the flag or frees the lock; turning off while no session holds the lock releases a free lock, which raises RuntimeError | `turn_monitoring_on(False)` after `turn_monitoring_on(True)` leaves monitoring on and the lock held; `turn_monitoring_on(False)` as the first monitoring call of a run raises RuntimeError | clear the flag and release the lock when monitoring is on | not executed | Parallel.Parallelism.TurnMonitoringOnAsWritten | Parallel.Parallelism.TurnMonitoringOn |
| parallelism/parallel/core.py:440-442 | the thread counters are zeroed once per run, not once per batch, so from the second batch on `prepare_to_invoke_calls` sees the previous batch's count | two batches of one slot: after batch 0, spawning batch 1 and calling `prepare_to_invoke_calls` before its worker starts returns 2 | count each batch's threads from 0 | not executed | Parallel.SecondBatchReadiness | Parallel.Parallelism.SpawnThreads |
| parallelism/parallel/ids.py:59-64 | `IDs.next_id` holds the non-reentrant `_lock` and calls the base `next_id`, whose `self.advance_id()` dispatches to `IDs.advance_id`, which acquires the same lock | `IDs(0).next_id()` never returns | return the same IDs as IdSmugglerBase, holding the lock once | not executed | Ids.LockedIds.NextIdAsWritten | Ids.LockedIds.NextId |
| parallelism/parallel/core.py:566 | the flag is read inside `with Mutex(self._read_write_lock)`, the non-reentrant lock an active session holds, so the question waits while a session is active | `turn_monitoring_on(True)` then `is_monitoring_turned_on()` on the same thread never returns | return True while a session is active, without taking the session's lock | not executed | Parallel.Parallelism.IsMonitoringTurnedOnAsWritten | Parallel.Parallelism.IsMonitoringTurnedOn |
