# Timers, recordings, samples, names and addresses

A model of parts of libossia, and proofs about it.

* **The timer engines** (`3rdparty/timertt/timertt.hpp`): a wheel, a sorted list and a binary
  heap, each with a class that changes timers, links, positions and counters in place, proved
  to change them as a specification on values says, and with theorems about that
  specification.  `Lifecycle` holds what the three share: status, reference counts and
  counters.  The lock is released while actions run: `script[i]` is any sequence of calls that
  clients, the actions among them, make at that point.
* **The timer thread** over each of the three, as state machines whose steps can be interleaved
  in any way, and **the smart pointer** to timers.
* **The recorder and the player** of the OSCR format, **the instance names** of nodes, **the
  sample formats** of the ALSA code, and **the cache of resolved addresses** of the QML engine.

| files | what they hold |
|---|---|
| `Common`, `Sequences`, `Division` | bytes and options; facts about sequences and division |
| `Lifecycle` | status, references and counters; what a pass does to one timer; runs |
| `TimerObject` | timers in memory, doubly linked lists, the counters |
| `ListSpec`, `ListEngine` | the list engine on values, and in place |
| `WheelSpec`, `WheelTiming`, `WheelOrder`, `WheelClock`, `WheelEngine` | the wheel engine on values, its exact firing ticks, their order, catching up with the clock, and in place |
| `BinaryHeap`, `HeapSpec`, `HeapPass`, `HeapEngine` | the heap array, the heap engine on values, whole passes, and in place |
| `Threads`, `ListThread`, `WheelThread`, `HeapThread` | the timer thread |
| `Holders` | timer_object_holder |
| `Custody` | smart pointers and an engine together, over whole runs |
| `OscDump` | the OSCR format, its recorder and its player |
| `Names` | sanitize_name |
| `Pcm`, `PcmBuffers` | samples, and buffers of samples |
| `AddressCache` | qml_engine_functions |

## How it is modelled

Every engine class has a ghost field `state`; `Valid()` says that memory stands for it, and
every method ensures which state it leads to.  The three `timer_type` structs are one class
`Timer` with the fields of all three.  A timer with no references is a deleted one; the field
`holders` is bookkeeping that the source does not have, and tells the references of smart
pointers from those of the engine.

A `Registry`, which the source does not have either, knows the smart pointers that are alive.
The calls `Hold` and `Drop` of a script are smart pointers that come and go while the lock is
released: the engines carry them out as operations of `Holder`.

What is read from the clock is a parameter.  Time points and durations are unbounded integers;
the unsigned ints of the wheel are not: the cast to ticks, the sum with the position and the
rounding are those of 32 bits.

What the code needs of its callers is stated where it is needed:

* granularity and wheel size are positive (`WheelEngine.constructor`);
* no action clears the engine or starts another pass (`exec == []`, `processing == null` at
  the start of a pass);
* a pass of the heap engine ends (`HeapPass.Ends`): it does when nothing goes back in time
  (`HeapPass.ForwardEnds`), and `HeapPass.LoopEnds` says when it does not;
* no action activates or reschedules the timer that is in processing in the heap engine after
  having deactivated it; `HeapEngine.SelfActivation` says what happens otherwise, and
  `HeapSpec.After` leaves such calls out.

Six statements that one would like to be true are not, and are replaced by exact ones:

* `heap_remove` lets the last entry sink but not rise, so that a removal from the middle can
  break the order of the heap (`BinaryHeap.RemoveKeepsOrder`, and `BinaryHeap.MoveKeepsOrder`
  for a rescheduling); a pass can then stop before a timer that is due
  (`HeapPass.DueTimerCanBeMissed`), and the thread sleep past it (`HeapThread.WakeupCanBeLate`);
* a pass of the heap engine does not end when a timer that is due has a negative period
  (`HeapPass.LoopEnds`, `HeapPass.EndlessPass`);
* a periodic timer whose period is a multiple of the wheel size comes one full roll late, as it
  is put back before the position moves on (`WheelTiming.ExactFiring`, `WheelTiming.FullRollLate`);
* an OSCR entry with an empty tag and a name whose length is a multiple of four is misread, as
  the player skips three zeros twice where seven stand (`OscDump.HeaderRoundTrip`,
  `OscDump.PlaybackIffLastIsRead`, `OscDump.MisreadLineSpoilsPlayback`);
* a sanitized name is not always fresh, as the counter runs over behind the largest int
  (`Names.SanitizedIsFresh`, `Names.FreshnessCanFail`);
* a removed device does not stay away when `setDevice` has only taken the lock once
  (`AddressCache.RemovedDeviceComesBack`, `AddressCache.BehindRemoval`).

The comment on `duration_to_ticks` says that durations are rounded up; the code rounds to the
nearest tick, and the model follows the code.  The characters that `name_characters` lists do not
include the equals sign, which `is_valid_character_for_name` accepts (`Names.DocumentedCharacters`).

## Model

| member | source | states |
|---|---|---|
| Lifecycle.AfterActivate | 3rdparty/timertt/timertt.hpp:1671-1704 | an activation keeps status in step with the execution list, and every reference count equal to the outside holders plus one for an engine that owns the timer |
| Lifecycle.AfterReschedule | 3rdparty/timertt/timertt.hpp:1738-1791 | a rescheduling keeps both, whichever of its three branches is taken |
| Lifecycle.AfterDeactivate | 3rdparty/timertt/timertt.hpp:1794-1821 | a deactivation keeps both: an active timer is released at once, one in the execution list only marked |
| Lifecycle.AfterBegin | 3rdparty/timertt/timertt.hpp:1413-1451 | detaching timers that are due makes exactly them the execution list, with the status that says so |
| Lifecycle.AfterChecks | 3rdparty/timertt/timertt.hpp:1456-1496 | whatever calls are made while actions run, the execution list is the same at the end and status still agrees with it |
| Lifecycle.AfterFinishOne | 3rdparty/timertt/timertt.hpp:1513-1533 | the head of the execution list leaves it with a status and a reference count that fit |
| Lifecycle.AfterFinish | 3rdparty/timertt/timertt.hpp:1505-1535 | the execution list is worked off to the end |
| Lifecycle.AfterClear | 3rdparty/timertt/timertt.hpp:1869-1884 | clearing leaves no timer in the engine's hands and every reference count balanced |
| Lifecycle.CallCounts | 3rdparty/timertt/timertt.hpp:746-769 | no call of a client makes a counter differ from the number of timers of its kind that the engine owns |
| Lifecycle.ChecksCount | 3rdparty/timertt/timertt.hpp:1456-1496 | nor do the calls made while actions run |
| Lifecycle.FinishCounts | 3rdparty/timertt/timertt.hpp:1505-1535 | nor does the end of a pass |
| Lifecycle.ClearCounts | 3rdparty/timertt/timertt.hpp:1129-1151 | the reset counters are the counts of a cleared engine |
| Lifecycle.OwnedIsCounted | 3rdparty/timertt/timertt.hpp:762-769 | the counter of an owned timer's kind is positive, so that decrementing an unsigned counter never wraps |
| Lifecycle.ZeroCountersMeanEmpty | 3rdparty/timertt/timertt.hpp:1105-1110 | both counters are zero exactly when the engine owns no timer: empty() of the wheel is exact |
| Lifecycle.ExecIsStable | 3rdparty/timertt/timertt.hpp:1473-1477 | while a timer is in the execution list, clients can change nothing of it but deactivate it |
| Lifecycle.ChecksExecute | 3rdparty/timertt/timertt.hpp:1469-1493 | the actions that are run are those of the timers not deactivated before their own check, each once and in order |
| Lifecycle.FinishSettles | 3rdparty/timertt/timertt.hpp:1511-1534 | each timer of the execution list is either active again with all its references, or gives back exactly one of them; all other timers are left alone |
| Lifecycle.ClearReleases | 3rdparty/timertt/timertt.hpp:1132-1145 | clearing releases each linked timer exactly once, deletes it exactly when nobody else holds it, and leaves all others alone |
| Lifecycle.PassOutcome | 3rdparty/timertt/timertt.hpp:1395-1535 | for any interference by clients: a timer deactivated before its check is not run, not rescheduled and released exactly once; a periodic one that nobody deactivated is active again; a timer is deleted exactly when nobody else holds it |
| Lifecycle.StepKeepsIdle | 3rdparty/timertt/timertt.hpp:200-214 | allocation, calls, passes and clearing keep references and counters conserved |
| Lifecycle.AfterRun | 3rdparty/timertt/timertt.hpp:200-214 | so they are conserved in every state a run of any length reaches |
| ListSpec.Place | 3rdparty/timertt/timertt.hpp:1968-1991 | the walk from the tail stops behind the last timer that is not later, with only later ones behind it |
| ListSpec.InsertIsStable | 3rdparty/timertt/timertt.hpp:1963-2003 | inserting a timer equals appending it and sorting stably: among timers due at the same time it is the last |
| ListSpec.SortedIsUnique | 3rdparty/timertt/timertt.hpp:1963-2003 | a stably sorted queue is determined by what it sorts, so that the previous statement says what insertion computes |
| ListSpec.InsertAllIsStable | 3rdparty/timertt/timertt.hpp:2123-2151 | repeated insertion is one stable sort |
| ListSpec.AfterActivate | 3rdparty/timertt/timertt.hpp:1671-1704 | keeps the queue sorted and without repetition, and active exactly the timers that are in it |
| ListSpec.ActivateNotifies | 3rdparty/timertt/timertt.hpp:1703 | activate answers true exactly when the new timer is strictly earlier than all others, and refuses a timer that is not deactivated |
| ListSpec.RescheduleNotifies | 3rdparty/timertt/timertt.hpp:1738-1791 | reschedule answers true exactly when the timer is then strictly earlier than all others, and refuses one that is in processing |
| ListSpec.AfterReschedule | 3rdparty/timertt/timertt.hpp:1738-1791 | keeps the same invariant when a timer is moved |
| ListSpec.AfterDeactivate | 3rdparty/timertt/timertt.hpp:1794-1821 | keeps the same invariant when a timer is taken out or marked |
| ListSpec.DueExactly | 3rdparty/timertt/timertt.hpp:2041-2064 | a pass detaches exactly the timers with m_when <= now, in order, and leaves the rest |
| ListSpec.PassFires | 3rdparty/timertt/timertt.hpp:1828-1842 | whatever clients do, a pass runs exactly the due timers that are not cancelled before their check, each once and in queue order |
| ListSpec.PassSortsStably | 3rdparty/timertt/timertt.hpp:2123-2151 | and leaves the queue as the stable sort of what clients left in it followed by the periodic timers put back |
| ListSpec.IdlePassFires | 3rdparty/timertt/timertt.hpp:2030-2067 | a pass that clients leave alone runs every due timer exactly once, even a periodic one that is due again at once |
| ListSpec.IdlePassQueue | 3rdparty/timertt/timertt.hpp:2123-2151 | and ends with the stable merge of the timers not due and the rescheduled ones |
| ListSpec.EntryInPass | 3rdparty/timertt/timertt.hpp:1828-1842 | a pass that clients leave alone runs a timer of the queue exactly when it is due; then it is queued for one period later, or gone if it has none, and otherwise it stays |
| ListSpec.FiresAsAsked | 3rdparty/timertt/timertt.hpp:1671-1842 | a timer that is activated or rescheduled between passes is run by such a pass exactly when the clock has reached the time of the call plus the pause, and is queued for one period later from there |
| TimerObject.EngineCommon.IncTimerCount | 3rdparty/timertt/timertt.hpp:746-753 | counts a timer for its kind |
| TimerObject.EngineCommon.DecTimerCount | 3rdparty/timertt/timertt.hpp:762-769 | takes it back, which is allowed only while the counter is positive |
| TimerObject.TimerList.Link | 3rdparty/timertt/timertt.hpp:1975-2002 | the links around a new node make the list with the node at its place, head and tail included |
| TimerObject.TimerList.Unlink | 3rdparty/timertt/timertt.hpp:2009-2022 | the links around a removed node make the list without exactly that node |
| TimerObject.TimerList.DetachPrefix | 3rdparty/timertt/timertt.hpp:2052-2064 | cutting the list leaves two well-formed lists, the elapsed nodes and the others |
| ListEngine.ListEngine.FindPoint | 3rdparty/timertt/timertt.hpp:1968-1991 | the pointer walk finds the node behind which the specification inserts |
| ListEngine.ListEngine.InsertTimerToList | 3rdparty/timertt/timertt.hpp:1963-2003 | the linked list stands for the stably sorted insertion |
| ListEngine.ListEngine.RemoveTimerFromList | 3rdparty/timertt/timertt.hpp:2009-2022 | the linked list stands for the queue without exactly this timer |
| ListEngine.ListEngine.Activate | 3rdparty/timertt/timertt.hpp:1671-1704 | memory and answer are those of the specification |
| ListEngine.ListEngine.Reschedule | 3rdparty/timertt/timertt.hpp:1738-1791 | memory and answer are those of the specification |
| ListEngine.ListEngine.Deactivate | 3rdparty/timertt/timertt.hpp:1794-1821 | memory is that of the specification |
| ListEngine.ListEngine.Allocate | 3rdparty/timertt/timertt.hpp:1654-1658 | a new timer is deactivated and has the returned smart pointer as its one holder |
| ListEngine.ListEngine.MakeExecList | 3rdparty/timertt/timertt.hpp:2030-2067 | the detached chain is the due prefix of the queue, and the list the rest |
| ListEngine.ListEngine.ExecActions | 3rdparty/timertt/timertt.hpp:2074-2114 | runs the actions the specification names, for any calls by clients in between |
| ListEngine.ListEngine.UtilizeExecList | 3rdparty/timertt/timertt.hpp:2123-2151 | relinks the periodic timers and releases the others as the specification says |
| ListEngine.ListEngine.ProcessExpiredTimers | 3rdparty/timertt/timertt.hpp:1828-1842 | a whole pass ends in the state, and has run the timers, that the specification gives |
| ListEngine.ListEngine.ClearAll | 3rdparty/timertt/timertt.hpp:1869-1884 | deactivates and releases every linked timer once and leaves an empty list |
| WheelSpec.DurationToTicks | 3rdparty/timertt/timertt.hpp:1301-1323 | a duration becomes a number of ticks that is never zero and fits an unsigned int |
| WheelSpec.RoundingError | 3rdparty/timertt/timertt.hpp:1307-1322 | the rounding is off by at most half a tick if and only if the duration rounds to at least one tick and to a number that fits |
| WheelSpec.TicksAre | 3rdparty/timertt/timertt.hpp:1307-1322 | every duration becomes the number of ticks it rounds to, cut to 32 bits, and 1 instead of 0 |
| WheelSpec.StoredPeriodIs | 3rdparty/timertt/timertt.hpp:1275-1279 | a period other than zero is rounded in the same way and never becomes zero; it is off by at most half a tick exactly under the condition of RoundingError |
| WheelSpec.PeriodIsRounded | 3rdparty/timertt/timertt.hpp:1275-1279 | so the period of a timer that is activated or rescheduled and not refused is zero exactly when none was asked for, and otherwise off by at most half a tick exactly under that condition |
| WheelSpec.AfterActivate | 3rdparty/timertt/timertt.hpp:919-949 | keeps every active timer in the one slot that its position names, and in no other |
| WheelSpec.ActivateNotifies | 3rdparty/timertt/timertt.hpp:945-948 | activate answers true exactly when the engine owned no timer before |
| WheelSpec.RescheduleNotifies | 3rdparty/timertt/timertt.hpp:983-1029 | reschedule answers true exactly when the engine owned no timer, and refuses one that is in processing |
| WheelSpec.AfterReschedule | 3rdparty/timertt/timertt.hpp:983-1029 | keeps the same invariant when a timer moves to another slot |
| WheelSpec.AfterDeactivate | 3rdparty/timertt/timertt.hpp:1032-1056 | keeps the same invariant when a timer is unlinked or marked |
| WheelSpec.AfterTick | 3rdparty/timertt/timertt.hpp:1076-1089 | one tick keeps the invariant, ends without execution list and moves on by one slot around the ring |
| WheelSpec.TickFiresUncancelled | 3rdparty/timertt/timertt.hpp:1413-1496 | whatever clients do, a tick runs exactly the timers of its slot without rolls left that are not cancelled before their check |
| WheelTiming.MarkIsExact | 3rdparty/timertt/timertt.hpp:1331-1341 | slot and rolls add up to the requested ticks if and only if the unsigned sum does not wrap, or the wheel size divides 2^32 |
| WheelTiming.ActivatedBetweenTicks | 3rdparty/timertt/timertt.hpp:1270-1273 | a timer activated with p ticks while no tick is being processed has exactly p ticks to go, if and only if the unsigned sum does no harm; counted from the next slot and the tick up to it, as an action that activates it finds it, they are p, or p and a full roll more if the wheel size divides p |
| WheelTiming.RescheduledBetweenTicks | 3rdparty/timertt/timertt.hpp:1023-1028 | the same of a timer that is rescheduled |
| WheelTiming.ActivatedDuringTick | 3rdparty/timertt/timertt.hpp:1517-1526 | a timer that an action activates with p ticks has Cycle(p, size) ticks to go, less the one being processed, if and only if the unsigned sum does no harm |
| WheelTiming.FirstFiringAfterActivation | 3rdparty/timertt/timertt.hpp:1084-1086 | so it is run for the first time in tick Cycle(p, size), counted from the tick of the activation, under exactly that condition |
| WheelTiming.TickWaits | 3rdparty/timertt/timertt.hpp:1422-1426 | a timer that is not due yet is not run, and is one tick closer after the tick |
| WheelTiming.TickFires | 3rdparty/timertt/timertt.hpp:1517-1526 | a timer that is due is run, and linked again for its period, counted from the slot that is still the current one |
| WheelTiming.StaysOut | 3rdparty/timertt/timertt.hpp:1413-1451 | a timer that is not active, and that nobody activates, is never run |
| WheelTiming.FiresByGaps | 3rdparty/timertt/timertt.hpp:1413-1535 | over any run of ticks and of calls that leave the timer alone, whatever the unsigned sums do, it fires exactly where the gap from each firing to the next, which depends on where it is put back, leads |
| WheelTiming.AlwaysFits | 3rdparty/timertt/timertt.hpp:1331-1341 | each gap is the period, or the period and a full roll if the wheel size divides it, if and only if no sum with a position wraps or wrapping does no harm |
| WheelTiming.ExactFiring | 3rdparty/timertt/timertt.hpp:1413-1535 | over any run of ticks and of calls that leave the timer alone, it fires in tick n if and only if n is the tick it was linked for or, when it is periodic, later by a multiple of its cycle: the period, and a full roll more if the wheel size divides it |
| WheelTiming.FullRollLate | 3rdparty/timertt/timertt.hpp:1517-1526 | for instance on a wheel of two slots a timer activated for two ticks with a period of two fires in ticks 2 and 6 and not in tick 4, in any run that leaves it alone |
| WheelTiming.FiresAsAsked | 3rdparty/timertt/timertt.hpp:1268-1341 | a timer that is activated or rescheduled between ticks with a pause and a period given as durations fires, over any run that leaves it alone, in exactly the ticks that they round to: p first, and one every cycle of q from then on; provided that no unsigned sum does harm |
| WheelOrder.LinkedLast | 3rdparty/timertt/timertt.hpp:1349-1370 | a call that is not refused puts its timer at the end of the slot of its tick, wherever it was before |
| WheelOrder.TickKeepsLead | 3rdparty/timertt/timertt.hpp:1413-1451 | a tick in which two timers of one slot are not due leaves the one ahead of the other, whatever calls are made about others |
| WheelOrder.TickInOrder | 3rdparty/timertt/timertt.hpp:1413-1535 | the tick in which both are due runs them in their order, and links them in this order again if they have the same period |
| WheelOrder.FirstComeFirstRun | 3rdparty/timertt/timertt.hpp:1413-1535 | over any run that leaves two timers of the same tick and period alone they are run in the same ticks, and each time the one that was linked first is run first |
| WheelOrder.FirstAskedFirstRun | 3rdparty/timertt/timertt.hpp:1343-1370 | so are two timers that are activated or rescheduled one after the other for the same number of ticks and with the same period |
| WheelClock.Processed | 3rdparty/timertt/timertt.hpp:1061-1100 | the catch-up loop terminates between two passes |
| WheelClock.CatchUp | 3rdparty/timertt/timertt.hpp:1074-1099 | it processes one tick for every border the clock has reached, and one more if the current tick was still to be processed; the border moves by a multiple of the granularity and ends behind the clock reading |
| WheelClock.RunsInOneCall | 3rdparty/timertt/timertt.hpp:1061-1100 | one call of process_expired_timers, whose actions leave a timer alone, runs it exactly as often as it has firing ticks among the ticks that are due by the clock |
| WheelClock.RunsCountFirings | 3rdparty/timertt/timertt.hpp:1413-1535 | as often means: once for each of the firing ticks that WheelTiming.FiresByGaps names |
| WheelClock.RunsByCycles | 3rdparty/timertt/timertt.hpp:1413-1535 | with sums that do no harm that is once for each cycle that has begun behind the ticks to go |
| WheelClock.RunsWhenDue | 3rdparty/timertt/timertt.hpp:1061-1100 | and it is run at all exactly when the clock has reached the border of the tick as many granules ahead as it has ticks to go |
| WheelClock.PositionAfterTicks | 3rdparty/timertt/timertt.hpp:1084-1086 | after n ticks the position is n slots on, modulo the wheel size |
| WheelEngine.WheelEngine.constructor | 3rdparty/timertt/timertt.hpp:877-893 | all slots are empty, and the first tick ends one granularity after the clock reading |
| WheelEngine.WheelEngine.InsertDemandToWheel | 3rdparty/timertt/timertt.hpp:1349-1370 | the timer is the last of its slot and all other slots are as before |
| WheelEngine.WheelEngine.RemoveTimerFromWheel | 3rdparty/timertt/timertt.hpp:1375-1387 | the timer is taken out of its slot and all other slots are as before |
| WheelEngine.WheelEngine.SetPositionInTheWheel | 3rdparty/timertt/timertt.hpp:1331-1341 | slot and rolls are those of the specification |
| WheelEngine.WheelEngine.DurationToTicks | 3rdparty/timertt/timertt.hpp:1301-1323 | the machine arithmetic computes the specified number of ticks |
| WheelEngine.WheelEngine.Activate | 3rdparty/timertt/timertt.hpp:919-949 | memory and answer are those of the specification |
| WheelEngine.WheelEngine.Reschedule | 3rdparty/timertt/timertt.hpp:983-1029 | memory and answer are those of the specification |
| WheelEngine.WheelEngine.Deactivate | 3rdparty/timertt/timertt.hpp:1032-1056 | memory is that of the specification |
| WheelEngine.WheelEngine.Allocate | 3rdparty/timertt/timertt.hpp:902-906 | a new timer is deactivated and has the returned smart pointer as its one holder |
| WheelEngine.WheelEngine.Chain | 3rdparty/timertt/timertt.hpp:1435-1446 | the timer is appended to the execution list, and no slot notices |
| WheelEngine.WheelEngine.MakeExecList | 3rdparty/timertt/timertt.hpp:1413-1451 | the due timers of the slot are chained in order, the others stay linked with one roll less |
| WheelEngine.WheelEngine.ExecActions | 3rdparty/timertt/timertt.hpp:1456-1496 | runs the actions the specification names, for any calls by clients in between |
| WheelEngine.WheelEngine.UtilizeExecList | 3rdparty/timertt/timertt.hpp:1505-1535 | links the periodic timers again and releases the others as the specification says |
| WheelEngine.WheelEngine.ProcessCurrentWheelPosition | 3rdparty/timertt/timertt.hpp:1395-1408 | one tick ends in the state, and has run the timers, that the specification gives |
| WheelEngine.WheelEngine.ProcessExpiredTimers | 3rdparty/timertt/timertt.hpp:1061-1100 | the loop over the ticks ends in the state, and has run the timers, that the specification gives |
| WheelEngine.WheelEngine.ClearAll | 3rdparty/timertt/timertt.hpp:1129-1151 | empties all slots, releases every linked timer once and starts the ring afresh |
| BinaryHeap.Add | 3rdparty/timertt/timertt.hpp:2660-2678 | adds exactly the given entry to the multiset of the heap |
| BinaryHeap.Remove | 3rdparty/timertt/timertt.hpp:2681-2719 | takes exactly the given entry out of the multiset of the heap |
| BinaryHeap.AddKeepsOrder | 3rdparty/timertt/timertt.hpp:2666-2678 | adding to an ordered heap always leaves it ordered |
| BinaryHeap.AddedToFront | 3rdparty/timertt/timertt.hpp:2666-2678 | in a heap whose head is its earliest entry a new one gets to the front if and only if it is earlier than the one there |
| BinaryHeap.RemoveKeepsOrder | 3rdparty/timertt/timertt.hpp:2681-2719 | removing from an ordered heap leaves it ordered if and only if the entry is the last one or the head, or the last one is not earlier than the parent of the vacated place |
| BinaryHeap.MoveKeepsOrder | 3rdparty/timertt/timertt.hpp:2360-2400 | exchanging an entry for any other one keeps the order under exactly the same condition: no new entry repairs what the removal does |
| BinaryHeap.RemoveKeepsHead | 3rdparty/timertt/timertt.hpp:2681-2719 | removal from an ordered heap leaves the earliest entry at the head, even if it breaks the order |
| BinaryHeap.SinksPastTies | 3rdparty/timertt/timertt.hpp:2697-2717 | an entry that sinks passes everything that is not later: where it comes to rest its children are strictly later |
| BinaryHeap.HeadIsEarliest | 3rdparty/timertt/timertt.hpp:2649-2656 | the head of an ordered heap is its earliest entry |
| HeapSpec.AfterActivate | 3rdparty/timertt/timertt.hpp:2275-2309 | keeps exactly the active timers in the heap, each once and with its period |
| HeapSpec.AfterReschedule | 3rdparty/timertt/timertt.hpp:2343-2400 | keeps the same invariant when a timer is moved |
| HeapSpec.AfterDeactivate | 3rdparty/timertt/timertt.hpp:2403-2435 | keeps the same invariant when a timer is taken out, or marked because it is in processing |
| HeapSpec.AfterBegin | 3rdparty/timertt/timertt.hpp:2456-2457 | the head goes from the heap into processing |
| HeapSpec.AfterFinish | 3rdparty/timertt/timertt.hpp:2463-2482 | after its action the timer is back in the heap, or deactivated and released |
| HeapSpec.AfterClear | 3rdparty/timertt/timertt.hpp:2508-2519 | leaves an empty heap and no active timer |
| HeapPass.DueSeqLength | 3rdparty/timertt/timertt.hpp:2454-2477 | a periodic timer is due ceil((now - when) / period) times |
| HeapPass.TurnWorksOff | 3rdparty/timertt/timertt.hpp:2446-2483 | each turn of the loop works off at least one of the firings that are due, whatever clients do: the loop terminates |
| HeapPass.AfterPass | 3rdparty/timertt/timertt.hpp:2446-2483 | whenever the loop ends, whatever periods and calls there are, it does so in a sound state whose head is not due |
| HeapPass.ForwardEnds | 3rdparty/timertt/timertt.hpp:2446-2483 | it ends if no timer that is due has a negative period, and calls ask for no time that has passed |
| HeapPass.LoopEnds | 3rdparty/timertt/timertt.hpp:2454-2477 | over an ordered heap that clients leave alone it ends if and only if no timer that is due has a negative period |
| HeapPass.EndlessPass | 3rdparty/timertt/timertt.hpp:2454-2477 | for instance it does not end at time 1 with one timer due at 0 whose period is -1 |
| HeapPass.FiringsAreBounded | 3rdparty/timertt/timertt.hpp:2446-2483 | a pass runs no more actions than firings were due at its start, and those it leaves due are not run |
| HeapPass.FiringsOfOne | 3rdparty/timertt/timertt.hpp:2446-2483 | what a pass fires of a timer followed by what it leaves due of it is what was due of it, in order; only a cancellation of that timer can cut this short |
| HeapPass.CallKeepsOrder | 3rdparty/timertt/timertt.hpp:2343-2435 | a call keeps the heap ordered if and only if it takes no entry out, or the last entry does not have to rise to the vacated place; a rescheduling never puts the order right |
| HeapPass.SteadyFiresInOrder | 3rdparty/timertt/timertt.hpp:2454-2457 | while the heap is ordered, timers fire in nondecreasing order of m_when |
| HeapPass.PassIsExact | 3rdparty/timertt/timertt.hpp:2446-2483 | if no call is harmful to the order, a pass refines repeated extraction of the minimum: all firings that are due, of every timer that is not cancelled, in order of time, and nothing due is left |
| HeapPass.AdditivePass | 3rdparty/timertt/timertt.hpp:2446-2483 | with actions that only activate timers, each single-shot timer due is run once and each periodic one ceil((now - when) / period) times, in order of time |
| HeapPass.ActivateNotifies | 3rdparty/timertt/timertt.hpp:2308 | activate answers true exactly when the new timer is strictly earlier than all others |
| HeapPass.RescheduleNotifies | 3rdparty/timertt/timertt.hpp:2343-2400 | so does reschedule, over an ordered heap, even if it breaks the order, and refuses a timer that is in processing |
| HeapPass.FiresAsAsked | 3rdparty/timertt/timertt.hpp:2446-2483 | a timer that is activated or rescheduled between passes is run, by a pass that clients leave alone over an ordered heap without due negative periods, once for each of its times, from the time of the call plus the pause on, that have passed |
| HeapPass.OrderCanBeLost | 3rdparty/timertt/timertt.hpp:2695-2717 | a heap whose order is lost by removing one entry from its middle |
| HeapPass.DueTimerCanBeMissed | 3rdparty/timertt/timertt.hpp:2454-2457 | a sound state with an ordered heap in which, after one timer is deactivated, a pass that clients leave alone ends with a timer that is due still in the heap |
| HeapEngine.HeapEngine.HeapSwap | 3rdparty/timertt/timertt.hpp:2722-2729 | exchanges two entries, and every timer still knows its position |
| HeapEngine.HeapEngine.HeapAdd | 3rdparty/timertt/timertt.hpp:2660-2678 | the vector stands for the specified insertion and every timer knows its position |
| HeapEngine.HeapEngine.HeapRemove | 3rdparty/timertt/timertt.hpp:2681-2719 | the vector stands for the specified removal, every timer in it knows its position, and the removed one keeps a position |
| HeapEngine.HeapEngine.FindMin | 3rdparty/timertt/timertt.hpp:2697-2710 | finds the child that the specification exchanges |
| HeapEngine.HeapEngine.Activate | 3rdparty/timertt/timertt.hpp:2275-2309 | memory and answer are those of the specification; the timer in processing, if its own action has deactivated it, is not refused but linked |
| HeapEngine.HeapEngine.Reschedule | 3rdparty/timertt/timertt.hpp:2343-2400 | memory and answer are those of the specification, with the same exception |
| HeapEngine.HeapEngine.SelfActivation | 3rdparty/timertt/timertt.hpp:2463-2482 | after that exception and the end of the turn the timer is in the heap twice, or in it although it was released, and memory stands for no state of the engine |
| HeapEngine.HeapEngine.Deactivate | 3rdparty/timertt/timertt.hpp:2403-2435 | memory is that of the specification |
| HeapEngine.HeapEngine.Allocate | 3rdparty/timertt/timertt.hpp:2258-2262 | a new timer is deactivated and has the returned smart pointer as its one holder |
| HeapEngine.HeapEngine.Begin | 3rdparty/timertt/timertt.hpp:2456-2457 | the head is in processing and out of the vector |
| HeapEngine.HeapEngine.Finish | 3rdparty/timertt/timertt.hpp:2463-2482 | the timer in processing is back in the vector, or deactivated and released |
| HeapEngine.HeapEngine.ProcessExpiredTimers | 3rdparty/timertt/timertt.hpp:2446-2483 | the loop, if it ends, does so in the state, and has run the timers, that the specification gives |
| HeapEngine.HeapEngine.SomeTurns | 3rdparty/timertt/timertt.hpp:2446-2483 | so does any number of its turns, also of a loop that does not end |
| HeapEngine.HeapEngine.ClearAll | 3rdparty/timertt/timertt.hpp:2508-2519 | deactivates and releases every timer of the vector once |
| ListThread.StepKeepsInv | 3rdparty/timertt/timertt.hpp:3553-3591 | every step of the thread or of a client keeps the invariant of the thread |
| ListThread.QuietCall | 3rdparty/timertt/timertt.hpp:3157-3178 | a call that does not notify leaves no timer earlier than the deadline of a waiting thread |
| ListThread.AfterRun | 3rdparty/timertt/timertt.hpp:3553-3591 | every interleaving keeps the invariant |
| ListThread.NoLostWakeup | 3rdparty/timertt/timertt.hpp:3576-3591 | in every interleaving a waiting thread has not been told to shut down, and its deadline is no later than any timer, or it has none and the engine is empty |
| ListThread.FinishedMeansShutdown | 3rdparty/timertt/timertt.hpp:3555-3567 | in every interleaving a thread has ended only if it was told to |
| ListThread.CallsArrive | 3rdparty/timertt/timertt.hpp:3157-3178 | calls reach the engine from the start on, also while actions run; without a thread that was started activations and reschedulings are refused, and nothing else |
| ListThread.AllocateArrives | 3rdparty/timertt/timertt.hpp:1654-1658 | a timer can be allocated at any time, and nobody else notices |
| ListThread.StartedServes | 3rdparty/timertt/timertt.hpp:3486-3568 | a thread that was just started takes exactly the timers that are due into its execution list, and waits for the earliest one if there is none |
| ListThread.StartsAgain | 3rdparty/timertt/timertt.hpp:3486-3528 | a thread that has ended can be joined and started again |
| ListThread.DeadlineIsServed | 3rdparty/timertt/timertt.hpp:3576-3591 | a thread that waits for the first timer and is left alone runs the timers of that time when it comes, and no others |
| ListThread.PassIsRun | 3rdparty/timertt/timertt.hpp:3559-3564 | a thread that enters its loop makes exactly one pass of the engine, whatever calls are made while it runs the actions, and then waits for the first timer |
| ListThread.SpuriousWakeup | 3rdparty/timertt/timertt.hpp:3576-3591 | a wait that ends for no reason changes nothing: if no timer is due the thread waits again as before |
| ListThread.DueTimerIsServed | 3rdparty/timertt/timertt.hpp:3559-3564 | a timer that is due while the thread waits is in its execution list after the timeout |
| ListThread.ShutdownIsServed | 3rdparty/timertt/timertt.hpp:3501-3511 | a shutdown ends a waiting thread at its next step, with all timers deactivated |
| ListThread.ShutdownDuringActions | 3rdparty/timertt/timertt.hpp:3559-3566 | and a thread that is running actions when they are done |
| WheelThread.StepKeepsInv | 3rdparty/timertt/timertt.hpp:3553-3591 | every step of the thread or of a client keeps the invariant of the thread |
| WheelThread.QuietCall | 3rdparty/timertt/timertt.hpp:3157-3178 | a call that does not notify leaves an empty engine empty |
| WheelThread.AfterRun | 3rdparty/timertt/timertt.hpp:3553-3591 | every interleaving keeps the invariant |
| WheelThread.NoLostWakeup | 3rdparty/timertt/timertt.hpp:3576-3591 | in every interleaving a waiting thread has not been told to shut down; without a deadline no timer is active, and otherwise the deadline is the end of the current tick |
| WheelThread.FinishedMeansShutdown | 3rdparty/timertt/timertt.hpp:3555-3567 | in every interleaving a thread has ended only if it was told to |
| WheelThread.CallsArrive | 3rdparty/timertt/timertt.hpp:3157-3178 | calls reach the engine from the start on, also while actions run; without a thread that was started activations and reschedulings are refused, and nothing else |
| WheelThread.AllocateArrives | 3rdparty/timertt/timertt.hpp:902-906 | a timer can be allocated at any time, and nobody else notices |
| WheelThread.StartedCatchesUp | 3rdparty/timertt/timertt.hpp:3486-3568 | a thread that was just started processes exactly the ticks that are due by its clock, and waits |
| WheelThread.StartsAgain | 3rdparty/timertt/timertt.hpp:3486-3528 | a thread that has ended can be joined and started again |
| WheelThread.SpuriousWakeup | 3rdparty/timertt/timertt.hpp:3576-3591 | a wait that ends for no reason changes nothing: before the end of the tick the thread waits again as before |
| WheelThread.ShutdownIsServed | 3rdparty/timertt/timertt.hpp:3501-3511 | a shutdown ends a waiting thread at its next step, with all slots empty and the ticks counted anew |
| WheelThread.ProceedIsProcessed | 3rdparty/timertt/timertt.hpp:1061-1100 | the loop of the thread, cut where it releases the lock, is the loop of process_expired_timers over the same ticks |
| WheelThread.DueTicksAreServed | 3rdparty/timertt/timertt.hpp:3559-3564 | once the current tick has ended, a waiting thread that clients leave alone processes exactly the ticks that are due by its clock, and waits again |
| WheelThread.ActionsEnd | 3rdparty/timertt/timertt.hpp:3559-3566 | a thread that is running actions processes all the ticks it still owes and then waits, or ends with an empty wheel if it has been told to shut down meanwhile |
| HeapThread.AfterStep | 3rdparty/timertt/timertt.hpp:3553-3591 | every step of the thread or of a client keeps the invariant of the thread |
| HeapThread.QuietCall | 3rdparty/timertt/timertt.hpp:3157-3178 | a call that does not notify and leaves the heap ordered leaves no timer earlier than the deadline of a waiting thread |
| HeapThread.StepKeepsOrder | 3rdparty/timertt/timertt.hpp:2446-2483 | a step leaves an ordered heap ordered if and only if it is not a call that harms the order |
| HeapThread.NoLostWakeup | 3rdparty/timertt/timertt.hpp:3576-3591 | in every interleaving without such a call a waiting thread has not been told to shut down, and its deadline is no later than any timer, or it has none and the heap is empty |
| HeapThread.FinishedMeansShutdown | 3rdparty/timertt/timertt.hpp:3555-3567 | in every interleaving a thread has ended only if it was told to |
| HeapThread.CallsArrive | 3rdparty/timertt/timertt.hpp:3157-3178 | calls reach the engine from the start on, also while actions run; without a thread that was started activations and reschedulings are refused, and nothing else |
| HeapThread.AllocateArrives | 3rdparty/timertt/timertt.hpp:2258-2262 | a timer can be allocated at any time, and nobody else notices |
| HeapThread.StartedServes | 3rdparty/timertt/timertt.hpp:3486-3568 | a thread that was just started takes the head of the heap into processing if its time has passed, and otherwise waits for it |
| HeapThread.StartsAgain | 3rdparty/timertt/timertt.hpp:3486-3528 | a thread that has ended can be joined and started again |
| HeapThread.DeadlineIsServed | 3rdparty/timertt/timertt.hpp:3576-3591 | a thread that waits for the head of the heap and is left alone runs it when its time has passed |
| HeapThread.PassIsRun | 3rdparty/timertt/timertt.hpp:3559-3564 | a thread that enters its loop and is left alone makes exactly one pass of the engine, if that ends, and then waits |
| HeapThread.SpuriousWakeup | 3rdparty/timertt/timertt.hpp:3576-3591 | a wait that ends for no reason changes nothing: if the head is not due the thread waits again as before |
| HeapThread.WakeupCanBeLate | 3rdparty/timertt/timertt.hpp:3576-3591 | with such a call it can be: a run from the start after which the thread waits for time 4, at time 4, with a timer in the heap that was due at 3 |
| HeapThread.WakesTooEarly | 3rdparty/timertt/timertt.hpp:2454 | a thread that wakes at the very time of the head runs nothing and waits for the same time again, as the loop asks for a time that has passed |
| HeapThread.LoopRuns | 3rdparty/timertt/timertt.hpp:3559-3564 | the loop of the thread, cut where it releases the lock, makes the turns of process_expired_timers, and the thread then waits or ends |
| HeapThread.DueTimerIsServed | 3rdparty/timertt/timertt.hpp:3559-3564 | a timer that was due while the thread waits in time over an ordered heap is run by the pass that follows the timeout, as often as it is due, and the thread then waits for a time that has not passed |
| HeapThread.ShutdownIsServed | 3rdparty/timertt/timertt.hpp:3501-3511 | a shutdown ends a waiting thread at its next step, with all timers deactivated |
| HeapThread.ShutdownDuringActions | 3rdparty/timertt/timertt.hpp:3559-3566 | and a thread that is running actions when the pass is over, if it ends |
| Holders.Registry.NoDanglingPointer | 3rdparty/timertt/timertt.hpp:207-214 | a timer that a live smart pointer refers to has not been deleted |
| Holders.Holder.TakeObject | 3rdparty/timertt/timertt.hpp:400-406 | the count goes up by one, and the live smart pointers still account for the books |
| Holders.Holder.DismissObject | 3rdparty/timertt/timertt.hpp:408-417 | the count goes down by one and never below zero, and the live smart pointers still account for the books; if the timer is deleted no other one refers to it |
| Holders.NewTimer | 3rdparty/timertt/timertt.hpp:902-906 | a new timer has one reference, that of the smart pointer that is returned |
| Lifecycle.CallKeepsHolders | 3rdparty/timertt/timertt.hpp:1794-1821 | a call to an engine leaves the references of smart pointers alone, and deletes its timer only if none of them refers to it |
| Lifecycle.FinishKeepsHolders | 3rdparty/timertt/timertt.hpp:1505-1535 | so does the end of a pass, for every timer of the execution list |
| Lifecycle.PassOnlyDeletes | 3rdparty/timertt/timertt.hpp:1395-1535 | a pass, whatever is called meanwhile, brings no deleted timer back |
| Custody.References | 3rdparty/timertt/timertt.hpp:200-214 | at any time, also while actions run, the references of a timer are one for each live smart pointer to it and one more exactly while an engine has it; so a timer that is linked, or that a smart pointer refers to, is not deleted |
| Custody.Take | 3rdparty/timertt/timertt.hpp:400-406 | a smart pointer that takes a timer keeps engine and smart pointers together, and the books of the engine follow |
| Custody.Dismiss | 3rdparty/timertt/timertt.hpp:408-417 | the same of a smart pointer that lets go |
| Custody.AllocateTimer | 3rdparty/timertt/timertt.hpp:239-250 | so does a new timer with its smart pointer, or a scoped object with the timer it contains |
| Custody.ScopedEnd | 3rdparty/timertt/timertt.hpp:239-250 | the end of a scoped object, whose timer goes away with it whatever its count, leaves nothing dangling if and only if the count is one: the engine has let go of the timer and no smart pointer refers to it |
| Custody.EndScoped | 3rdparty/timertt/timertt.hpp:254-262 | then engine and smart pointers are still together, without that timer |
| Custody.FromRaw | 3rdparty/timertt/timertt.hpp:293-298 | so does a smart pointer made from a raw pointer: one reference more |
| Custody.Copy | 3rdparty/timertt/timertt.hpp:299-304 | so does a copy: one reference more |
| Custody.Move | 3rdparty/timertt/timertt.hpp:305-310 | so does a move, which leaves the books alone and the source empty |
| Custody.Destroy | 3rdparty/timertt/timertt.hpp:319-323 | so does the end of a smart pointer: one reference less |
| Custody.CopyAssign | 3rdparty/timertt/timertt.hpp:325-332 | so does a copy assignment, also to itself: one reference more of the new timer, then one less of the old one |
| Custody.MoveAssign | 3rdparty/timertt/timertt.hpp:334-341 | so does a move assignment, which gives up the reference to the old timer, and nothing in a self-move |
| Custody.Swap | 3rdparty/timertt/timertt.hpp:343-350 | so does an exchange, which leaves the books alone |
| Custody.Reset | 3rdparty/timertt/timertt.hpp:355-359 | so does a reset: one reference less |
| Custody.Ask | 3rdparty/timertt/timertt.hpp:383-391 | so does a call that is given a smart pointer by value: a null pointer is refused and nothing happens; otherwise the answer is that of the specification, and the reference that was passed is given up, which deletes a timer that the engine refused and nobody else holds |
| Custody.ProcessExpired | 3rdparty/timertt/timertt.hpp:1061-1100 | so does a pass of any engine during which smart pointers come and go, over the heap also one that does not end, looked at between two turns |
| Custody.ClearAll | 3rdparty/timertt/timertt.hpp:1127-1151 | so does clearing |
| Custody.World.Run | 3rdparty/timertt/timertt.hpp:200-214 | so does any run of all these operations, from an empty engine on, with any arguments: every reference is accounted for in every state it reaches, and no deleted timer comes back, so that each is deleted at most once |
| OscDump.EntryReads | examples/Network/asio/OSC_playback.cpp:72-92 | an entry is read back as it was written if and only if it does not combine an empty tag with a name whose length is a multiple of four |
| OscDump.EntriesRead | examples/Network/asio/OSC_playback.cpp:72-93 | the same for a list of entries, together with the offset behind them |
| OscDump.HeaderRoundTrip | examples/Network/asio/OSCQuery_recorder.cpp:72-109 | reading a written header gives the same entries and the same end, if and only if no entry is of that kind |
| OscDump.TooManyLines | examples/Network/asio/OSC_playback.cpp:60-94 | of a header with 2^31 lines or more none is read, as their number is taken for a signed one |
| OscDump.NoRecording | examples/Network/asio/OSC_playback.cpp:60-94 | a file that does not begin like a recording has no entries, and the player reads outside of them |
| OscDump.MessageLayout | examples/Network/asio/OSCQuery_recorder.cpp:112-129 | a message is the index in its first eight bytes, the timestamp in the next eight, lowest byte first, and the value |
| OscDump.NumberSize | examples/Network/asio/OSC_playback.cpp:112-146 | the player takes four bytes for each letter of the tags of ints, floats and vectors, one for that of a blob, and none for others |
| OscDump.SizesAgree | src/ossia/network/oscquery/detail/typetag.cpp:14-88 | the size that the recorder notes for a type is the one that the player takes for its typetag, for ints, floats and vectors; those of bools and impulses the player does not know |
| OscDump.MessagesReplay | examples/Network/asio/OSC_playback.cpp:231-238 | messages of int, float and vector parameters are replayed as the same indices and values, ending exactly at the end of the file |
| OscDump.PlaybackOfRecording | examples/Network/asio/OSC_playback.cpp:182-238 | a recording is played back as recorded |
| OscDump.PlaybackIffLastIsRead | examples/Network/asio/OSC_playback.cpp:182-238 | if at most the last line of the header is of the kind that is misread, a recording is played back as recorded exactly when that line is not |
| OscDump.MisreadLineSpoilsPlayback | examples/Network/asio/OSC_playback.cpp:182-238 | for instance with the lines /a, f and /abc without a tag no message of the first is played back as recorded |
| OscDump.MisreadLineCanPlay | examples/Network/asio/OSC_playback.cpp:182-238 | of a line that is not the last one no such statement holds: a file whose second line is misread and whose messages are all played back as recorded |
| OscDump.RecordingIsPlayedBack | examples/Network/asio/OSCQuery_recorder.cpp:72-129 | what the recorder writes for its nodes is played back as recorded, together with any messages of int, float and vector parameters, whose typetags and sizes are those of the library |
| OscDump.Recorder.Pad4 | examples/Network/asio/OSCQuery_recorder.cpp:31-47 | fills up to the next multiple of four |
| OscDump.Recorder.WriteHeader | examples/Network/asio/OSCQuery_recorder.cpp:72-109 | writes the header of the nodes |
| OscDump.Recorder.WriteMessage | examples/Network/asio/OSCQuery_recorder.cpp:112-129 | appends a message for a float of a known node, and nothing otherwise |
| OscDump.Player.ReadToNextBoundary | examples/Network/asio/OSC_playback.cpp:49-55 | skips zeros, at most three |
| OscDump.Player.ReadHeader | examples/Network/asio/OSC_playback.cpp:60-94 | reads what the format says, or stops where the file ends too early |
| OscDump.Player.Process | examples/Network/asio/OSC_playback.cpp:112-146 | pushes the value that the tag of the entry names and moves on by the size of the entry |
| OscDump.Player.Replay | examples/Network/asio/OSC_playback.cpp:231-238 | replays what the format says, or stops where the source would read outside |
| Names.PrintedInt | src/ossia-qt/qt_logger.cpp:136 | what is printed of an int is read back |
| Names.NumberIsRead | src/ossia-qt/qt_logger.cpp:76-80 | blanks around a number and a plus sign do not count, and what does not fit an int is no number |
| Names.DocumentedCharacters | src/ossia/network/base/name_validation.hpp:33-54 | the characters that are kept are those that the library documents, and the equals sign |
| Names.NumberIsCutOff | src/ossia-qt/qt_logger.cpp:72-83 | the root of an instance is what it was numbered from |
| Names.InstanceGetsNext | src/ossia-qt/qt_logger.cpp:61-139 | an instance of a root that exists already is given the root and one more than the largest number next to it, if what starts like an instance of that root is one |
| Names.PlainGetsNext | src/ossia-qt/qt_logger.cpp:61-139 | so is a plain name that exists already, with the number one if it has no instance yet |
| Names.SequenceGoesOn | src/ossia-qt/qt_logger.cpp:61-139 | whichever of name, name.1 to name.n is inserted next to them again, name.(n+1) is given |
| Names.SanitizedIsFresh | src/ossia-qt/qt_logger.cpp:61-139 | the name is not among the siblings, unless the counter runs over and the instance it then starts with exists: exactly then |
| Names.FreshnessCanFail | src/ossia-qt/qt_logger.cpp:135-136 | next to itself and its instances with the largest and the smallest int, every plain name is given a name that exists |
| Names.LetterCanFail | src/ossia-qt/qt_logger.cpp:135-136 | for instance the name a |
| Names.InstanceSequence | src/ossia-c/ossia-c.h:853-860 | inserting a plain name again and again gives name, name.1, name.2 and so on |
| Names.SanitizeCharacters | src/ossia-qt/qt_logger.cpp:48-59 | replaces exactly the characters that are not allowed |
| Names.ReadInstance | src/ossia-qt/qt_logger.cpp:94-120 | reads the number of a sibling with the same root |
| Names.Largest | src/ossia-qt/qt_logger.cpp:135-136 | the number the source finds by sorting |
| Names.SanitizeName | src/ossia-qt/qt_logger.cpp:61-139 | computes the specified name |
| Pcm.RoundTrip | 3rdparty/zita-alsa-pcmi/zita-alsa-pcmi-ardour.cc:1160-1420 | capturing a played sample gives trunc(M * clamp(s)) / M, in all six formats |
| Pcm.RoundTripError | 3rdparty/zita-alsa-pcmi/zita-alsa-pcmi-ardour.cc:1160-1420 | the error is below 1/M for a sample that is not clipped, and nothing leaves -1 to 1 |
| Pcm.Idempotent | 3rdparty/zita-alsa-pcmi/zita-alsa-pcmi-ardour.cc:1160-1420 | playing a captured sample again gives the same bytes |
| Pcm.Orders | 3rdparty/zita-alsa-pcmi/zita-alsa-pcmi-ardour.cc:1160-1297 | the two byte orders mirror each other, and 32 bits hold the same 24 |
| Pcm.BytesHoldLevel | 3rdparty/zita-alsa-pcmi/zita-alsa-pcmi-ardour.cc:1160-1297 | in little endian order the bytes are the level as a signed number, lowest byte first |
| Pcm.LevelIs | 3rdparty/zita-alsa-pcmi/zita-alsa-pcmi-ardour.cc:1160-1297 | the level is the sample times the largest level, cut off towards zero, and clipped beyond 1 and -1 |
| PcmBuffers.StridedRoundTrip | 3rdparty/zita-alsa-pcmi/zita-alsa-pcmi-ardour.cc:1160-1420 | the round trip holds for every frame of a buffer with a common stride that leaves room for a sample |
| PcmBuffers.OthersUntouched | 3rdparty/zita-alsa-pcmi/zita-alsa-pcmi-ardour.cc:1160-1297 | bytes between the frames are not touched |
| PcmBuffers.StridedAt | 3rdparty/zita-alsa-pcmi/zita-alsa-pcmi-ardour.cc:1160-1297 | the samples of a source are those at its stride, in order |
| PcmBuffers.CapturedAt | 3rdparty/zita-alsa-pcmi/zita-alsa-pcmi-ardour.cc:1323-1420 | the samples captured are those of the bytes at the stride, in order |
| PcmBuffers.StoredIs | 3rdparty/zita-alsa-pcmi/zita-alsa-pcmi-ardour.cc:1323-1420 | capturing stores exactly the captured samples at the stride of the destination, in order, and nothing else |
| PcmBuffers.CaptureAfterPlay | 3rdparty/zita-alsa-pcmi/zita-alsa-pcmi-ardour.cc:1160-1420 | so what capturing stores of what playing has written are the levels of the samples over the peak, and the rest of the destination is as before |
| PcmBuffers.PlayedAgain | 3rdparty/zita-alsa-pcmi/zita-alsa-pcmi-ardour.cc:1160-1420 | playing a captured buffer again changes nothing |
| PcmBuffers.Play | 3rdparty/zita-alsa-pcmi/zita-alsa-pcmi-ardour.cc:1160-1297 | the pointer loop writes the specified bytes and ends one stride behind the last frame |
| PcmBuffers.Capture | 3rdparty/zita-alsa-pcmi/zita-alsa-pcmi-ardour.cc:1323-1420 | the pointer loop stores the specified samples |
| PcmBuffers.Clear | 3rdparty/zita-alsa-pcmi/zita-alsa-pcmi-ardour.cc:1128-1157 | clearing leaves what playing silence would |
| AddressCache.FreshIsInDevices | src/ossia-qt/qml_engine_functions.cpp:40-86 | an address leads to an existing parameter of a device of the list, or of the script's own device |
| AddressCache.FreshIs | src/ossia-qt/qml_engine_functions.cpp:20-86 | an address leads to a parameter exactly if it names its node: without a colon by its path in the script's own device, or without one in the first device of the list that knows the path; with a colon in the first device of the name in front of it, by the path behind it, or as the root if it ends there; an address that leads to no parameter leads to itself exactly if it is a pattern |
| AddressCache.WithoutInOrder | src/ossia-qt/qml_engine_functions.cpp:117-126 | removing a device leaves the others in their order |
| AddressCache.SortedUniqueIs | src/ossia/detail/algorithms.hpp:284-291 | sorting and dropping duplicates gives an ascending list of the same devices |
| AddressCache.EngineFunctions.NoStaleParameter | src/ossia-qt/qml_engine_functions.cpp:98-148 | in every reachable state a parameter in the cache exists and belongs to a device of the list or to the script's own one |
| AddressCache.BehindRemoval | src/ossia-qt/qml_engine_functions.cpp:107-139 | after any run of regions under the lock behind the removal of a device, it is in the list exactly when a region added it after the last one that took it out, the script's own device exactly when it was made so after the last change of that, and neither once disabled |
| AddressCache.RemovedDeviceComesBack | src/ossia-qt/qml_engine_functions.cpp:128-139 | a device that is removed between the two regions of setDevice is in the list again |
| AddressCache.EngineFunctions.Run | src/ossia-qt/qml_engine_functions.cpp:98-148 | any interleaving of threads keeps the cache in agreement and leads to the list and the own device that the regions say |
| AddressCache.EngineFunctions.RunBehindRemoval | src/ossia-qt/qml_engine_functions.cpp:117-126 | as long as no region behind its removal adds a device or makes it the script's own, nothing names it: neither list, nor own device, nor a parameter in the cache |
| AddressCache.EngineFunctions.FindAddress | src/ossia-qt/qml_engine_functions.cpp:20-96 | the answer is what the address names now, whether it comes from the cache or not |
| AddressCache.EngineFunctions.Access | src/ossia-qt/qml_engine_functions.cpp:150-171 | find, read and write use what the address names now, and nothing once disabled |
| AddressCache.EngineFunctions.SetDevices | src/ossia-qt/qml_engine_functions.cpp:98-105 | replaces the list; the cache agrees with it |
| AddressCache.EngineFunctions.AddDevice | src/ossia-qt/qml_engine_functions.cpp:107-115 | adds the device, in ascending order; the cache agrees with the list |
| AddressCache.EngineFunctions.RemoveDevice | src/ossia-qt/qml_engine_functions.cpp:117-126 | neither the list, nor the script's own device, nor the cache refers to the device any more |
| AddressCache.EngineFunctions.SetOwnDevice | src/ossia-qt/qml_engine_functions.cpp:130-136 | the first of setDevice's two regions: changes the scope of unqualified addresses; the cache agrees with it |
| AddressCache.EngineFunctions.Disable | src/ossia-qt/qml_engine_functions.cpp:141-148 | drops everything |
| AddressCache.EngineFunctions.EditTree | src/ossia-qt/qml_engine_functions.cpp:421-447 | an edit changes the script's own tree only, at once or later, and not at all without own device or once disabled; the cache agrees with the new tree |
| AddressCache.EngineFunctions.RunEdit | src/ossia-qt/qml_engine_functions.cpp:437-446 | a late edit has no effect once disabled |

## Left out

- Exceptions thrown by actions, by assigning an action, or by the loggers; the actions themselves are the calls they make.
- Memory ordering of the atomics, the mutex and the condition variable: a step is what happens under one lock; the wait can end for no reason.
- The storage of actions (`buffer_allocated_object`), the template aliases behind line 3596, and the timer managers, which call the engines without a thread.
- HeapSpec.AfterActivate: leaves the timer in processing alone when its own action has deactivated it; the source links it, and is then in no state that this specification knows, as `HeapEngine.SelfActivation` says.
- HeapSpec.AfterReschedule: the same.
- HeapEngine.HeapEngine.SelfActivation: ends with the turn of that timer; what later passes do with such a heap is not part of this model.
- Custody.World.Run: no action activates its own timer after having deactivated it.
- WheelClock.RunsWhenDue: relative to the border of the current tick, which gets stale while the thread waits without a deadline.
- ListEngine.ListEngine.ProcessExpiredTimers: actions do not allocate timers; a timer allocated during a pass is one that is allocated before it and not used yet.
- OscDump.Player.Replay: stops without a result where the source reads outside of the file or of its entries, or reads a message of size zero for ever.
- OscDump.RecordingIsPlayedBack: values are bytes; how they are packed from ints and floats is not part of this model, and the recorder itself writes messages of floats only.
- Names.ToInt: `QString::toInt` is not part of the repository; it is taken to skip blanks, accept a sign and decimal digits, and refuse what does not fit.
- Names.SanitizedIsFresh: one more than the largest int is taken to be the smallest, which C++ leaves undefined; the same holds of Names.FreshnessCanFail and Names.LetterCanFail.
- Names.Largest: `std::sort` is replaced by what its last element is.
- Pcm.RoundTrip: samples are reals; the rounding of floats and the two float formats are not modelled.
- The set-up, polling and recovery of ALSA devices.
- OscDump.PlaybackIffLastIsRead: says nothing of a misread line that is not the last one, because playback then depends on what the lines behind it happen to look like, as `OscDump.MisreadLineCanPlay` shows; the header is read wrongly in any case, as `OscDump.HeaderRoundTrip` says.
- AddressCache.EngineFunctions.Access: what is done with the destination (conversions, pattern matching, `on_push` and writes that re-enter) is not part of this model.
- Tree lookup, path parsing and typetags are given functions or strings; files, sockets and mappings are byte sequences.
- All bindings, protocols and other examples.
