# FreeRTOS kernel services and the logger, verified

A Dafny model of the FreeRTOS kernel services in this firmware, with the repository's own log buffer.
`dafny verify dfyconfig.toml` checks all of it.

| files | what they are about |
|---|---|
| ListSpec, IntrusiveList | the circular doubly linked kernel list with its roving index: what its operations do to the sequence of items, and the pointer code proved to do it |
| HeapSpec, HeapModel, Heap4 | the `heap_4` allocator: intervals of addresses, the machine of allocations and releases over every run, and the code over linked headers in memory |
| TwoLists | one list in order of true time, kept as two lists of wrapped 32-bit tick values; shared by timers and co-routines |
| TimerModel, TimerRuns, Timers | software timers: a service with one list and an unbounded clock, its promises over every run, and the daemon with its two lists proved to take exactly those steps |
| TimerRoom, TimerSteps | when a restart is lost to a full command queue; and the daemon in pieces, with commands arriving at any moment |
| TimerCommands, TimerOnce | what turns and commands do to a timer; and one-shot timers over every run |
| TimerProgress, TimerActive | that the daemon comes to the end of its commands; and when the ACTIVE bit says what the lists say |
| StreamSpec, StreamBuffers | stream and message buffers as a byte queue with framing, and the ring-buffer code that implements it |
| StreamInterleaving, MessageInterleaving, StreamHandshake | one writer and one reader at work at the same time, byte by byte, in stream and in message mode; and the blocking and notification protocol |
| EventSpec, EventGroups, Rendezvous | event groups as a state machine, the code that refines it, and tasks that meet by `xEventGroupSync` round after round |
| CoRoutineModel, CoRoutines | the co-routine scheduler: one list and an unbounded clock, and the code with two lists, a wrapping count and interrupts that may run wherever they are not disabled |
| LoggerModel, LogBuffer | the log buffer: what a flush prints after any run of writes, and the code |

The pattern is the same where the code is sequential. A class has the fields of the C structures; its methods
take the branches of the C functions, and are proved to do to those fields what a function of the specification
module says. What the services promise is then proved of the specification, for all inputs and all runs.
StreamInterleaving, MessageInterleaving and StreamHandshake are about two callers at once, and are machines
whose steps are the pieces of the C functions between which the other side may run; the blocking loops of
stream_buffer.c appear there as steps, not as methods. TimerSteps takes the timer daemon apart in the same way.
Tick counts, indices and sizes are 32 bits wide and wrap where the code lets them; ghost variables of
unbounded size say what they stand for. Critical sections, and sections with the scheduler suspended, are
single steps.

Some of what the code might be thought to do, it does not:

- An auto-reload timer survives only if there is room in the command queue when the daemon restarts it
  (timers.c:503, 786, 899). `TimerRoom.RestartLost` is an input that loses it, and `TimerRuns.ExactlyOnce` says what
  becomes of it then. `TimerRoom.StepLoses` and `TimerRoom.RunLoses` say exactly when a step, and a run, loses one.
  `TimerSteps.RoomKept` gives a bound that is sufficient whatever the daemon is doing when commands arrive, from
  callbacks and interrupts too; it is not necessary, since the daemon may get to empty the queue in time.
- The ACTIVE bit does not always say whether a timer is listed. `TimerActive.StepRight` and
  `TimerActive.RunRight` say exactly when it does; `TimerActive.RolloverKeepsBit` and
  `TimerActive.LateStartKeepsBit` are inputs at which a one-shot timer keeps the bit after it has expired.
- A receiver of messages that finds the next one too long, or asks for its length, moves `xTail` and moves it
  back (stream_buffer.c:838-843, 934-948). A send that reads the space in between counts four bytes too many.
  `MessageInterleaving.HarmExact` says exactly which sends can overwrite unread bytes, and
  `MessageInterleaving.CarefulInOrder` what callers have to avoid; `MessageInterleaving.UnsafeSendCorrupts` is a run.
- Both sides of a stream buffer can be asleep at once; `StreamHandshake.MutualSleep` says exactly when.
- A message of no bytes is stored by a send that reports 0 (`StreamSpec.SendReports`).
- The unread count of the logger is 4096 whenever the buffer has been marked full (`LoggerModel.CountExact`,
  `LoggerModel.CountAfter`, and `LoggerModel.CountWrong` for an input). With more than 4096 characters between two
  flushes what is printed need not be what was written; `LoggerModel.FlushSees` says what it is, and
  `LoggerModel.FirstInFirstOut` that 4096 is the bound that holds for all texts. `Uart::print` stops at a NUL,
  so the text has to be free of them (`LoggerModel.PayloadAll`).
- In `prvCheckDelayedList` an event that comes just before the critical section does not clear the container
  of the event item, as the comment at croutine.c:255-259 has it, but sets it to the pending-ready list, from
  where the critical section removes it. The model follows the code.

## Model

| member | source | states |
|---|---|---|
| `ListSpec.InsertThenRemove` | lib/FreeRTOS/src/list.c:103-196 | inserting an item and removing it again restores the list exactly |
| `ListSpec.RunSortedStable` | lib/FreeRTOS/src/list.c:103-196 | for every run of insertions and removals from an initialised list: it holds exactly the items inserted and not removed since, ascending by value and first-in first-out among equal values, the maximum included |
| `ListSpec.InsertPositionUnique` | lib/FreeRTOS/src/list.c:116-156 | the place where the search stops is the only one that splits the values into those not above and those above the new one |
| `ListSpec.RoundRobin` | lib/FreeRTOS/include/list.h:277-288 | as many next-entry calls as there are items return each item once, starting behind the roving index |
| `ListSpec.InsertEndIsVisitedLast` | lib/FreeRTOS/src/list.c:74-100 | an item inserted at the end is visited after every other item, except the one the roving index stands on |
| `ListSpec.RemoveKeepsVisitOrder` | lib/FreeRTOS/src/list.c:170-196 | removing any item, even the indexed one, leaves the visiting order of the others unchanged |
| `IntrusiveList.List.constructor` | lib/FreeRTOS/src/list.c:37-59 | an initialised list is a well-formed ring of the end marker alone |
| `IntrusiveList.List.FindInsertionPoint` | lib/FreeRTOS/src/list.c:116-156 | the search loop terminates, for the maximum value as well, and stops at the last node that is not above the new value |
| `IntrusiveList.List.Insert` | lib/FreeRTOS/src/list.c:103-167 | the ring stays doubly linked, with right count and containers, and its entries become those of ListSpec.Insert; the roving index stays on its item |
| `IntrusiveList.List.InsertEnd` | lib/FreeRTOS/src/list.c:74-100 | the new item goes in front of the node that the roving index stands on; the ring stays well formed |
| `IntrusiveList.List.Remove` | lib/FreeRTOS/src/list.c:170-196 | the item leaves the ring and its container; the index steps back if it stood on the item; the others keep their order; the count returned is the number left |
| `IntrusiveList.List.OwnerOfNextEntry` | lib/FreeRTOS/include/list.h:277-288 | the index moves to the next item, past the end marker, and the owner of that item is returned |
| `HeapSpec.CanonicalUnique` | lib/FreeRTOS/src/heap_4.c:377-435 | a free list in canonical form (ascending maximal free intervals) is determined by which addresses are free |
| `HeapSpec.InsertFreeCovers` | lib/FreeRTOS/src/heap_4.c:377-435 | inserting a block frees exactly its addresses |
| `HeapSpec.InsertFreeCanonical` | lib/FreeRTOS/src/heap_4.c:377-435 | with the two merging tests the list stays canonical: no two free blocks touch |
| `HeapModel.RoundedExact` | lib/FreeRTOS/src/heap_4.c:137-163 | adding the header and rounding up to 8 in 32-bit arithmetic never wraps for a request without the top bit, and pads by less than 8 bytes |
| `HeapModel.FirstFitComplete` | lib/FreeRTOS/src/heap_4.c:135-174 | a request succeeds if and only if it is not zero, has no top bit, and some single free block holds the rounded size; the early test against the total rejects nothing else |
| `HeapModel.GrantFits` | lib/FreeRTOS/src/heap_4.c:165-224 | the block handed out starts the lowest sufficient free block, has at most 16 bytes more than the rounded size, and its payload is 8-aligned |
| `HeapModel.GrantExact` | lib/FreeRTOS/src/heap_4.c:165-224 | of the lowest block that holds the rounded size just that size is taken if more than 16 bytes are left over, and the whole block otherwise; the free bytes go down by exactly as much |
| `HeapModel.NotGranted` | lib/FreeRTOS/src/heap_4.c:113-260 | a request of 0, with the top bit, or for which no block is large enough, changes nothing |
| `HeapModel.MallocKeepsTiling` | lib/FreeRTOS/src/heap_4.c:113-224 | after an allocation free and live blocks still partition the heap, the free list is canonical and aligned |
| `HeapModel.FreeKeepsTiling` | lib/FreeRTOS/src/heap_4.c:263-308 | and so after a release of a live block |
| `HeapModel.FreeReturns` | lib/FreeRTOS/src/heap_4.c:263-308 | a release makes exactly the addresses of its block free, and takes that block, and no other, off the live ones |
| `HeapModel.MallocThenFree` | lib/FreeRTOS/src/heap_4.c:113-308 | freeing a block that has just been allocated restores the previous free list exactly |
| `HeapModel.NothingLive` | lib/FreeRTOS/src/heap_4.c:329-374 | with nothing live the free list is the single block made by initialisation |
| `HeapModel.FreesCommute` | lib/FreeRTOS/src/heap_4.c:263-308 | the order of two releases makes no difference to the free list |
| `HeapModel.RunKeepsTiling` | lib/FreeRTOS/src/heap_4.c:113-308 | the partition holds in every state of every run of allocations and releases |
| `HeapModel.RunKeepsNoSliver` | lib/FreeRTOS/src/heap_4.c:53-187 | in every state of every run each block, free or live, has at least 16 bytes |
| `HeapModel.AllReleased` | lib/FreeRTOS/src/heap_4.c:263-374 | at the end of any run that has released everything, in whatever order, the initial single block is back |
| `HeapModel.LowWaterMark` | lib/FreeRTOS/src/heap_4.c:209-216 | the low-water mark is the least number of free bytes over the whole run |
| `Heap4.Allocator.HeapInit` | lib/FreeRTOS/src/heap_4.c:329-374 | over memory: aligns the heap and threads the one initial free block between xStart and pxEnd |
| `Heap4.Allocator.FindPlace` | lib/FreeRTOS/src/heap_4.c:384-387 | the address-ordered search stops at the node in front of the block |
| `Heap4.Allocator.InsertBlockIntoFreeList` | lib/FreeRTOS/src/heap_4.c:377-435 | over memory: the headers then spell the free list with the block merged into its neighbours, and no header outside the free list and the block is written |
| `Heap4.Allocator.FindFit` | lib/FreeRTOS/src/heap_4.c:165-173 | the search stops at the first free block that is large enough, or at pxEnd |
| `Heap4.Allocator.Adjust` | lib/FreeRTOS/src/heap_4.c:137-163 | the size arithmetic of the code, wrap-around tests included |
| `Heap4.Allocator.Malloc` | lib/FreeRTOS/src/heap_4.c:113-224 | over memory: takes the step of the model, returns the payload address or null, keeps xFreeBytesRemaining equal to the sum of free sizes, and writes inside no live block |
| `Heap4.Allocator.Free` | lib/FreeRTOS/src/heap_4.c:263-308 | over memory: takes the step of the model for a live pointer, changes nothing for null or a pointer whose header is not marked allocated, and writes inside no other live block |
| `Heap4.Allocator.Store` | lib/FreeRTOS/src/heap_4.c:113-224 | what the application writes into its own payload disturbs nothing the allocator relies on |
| `Timers.WrapSafe` | lib/FreeRTOS/src/timers.c:668-706 | for a command less than 2^32 ticks old the wrapped tests report "process now" if and only if the true expiry has passed, and otherwise pick the list of the epoch in which the timer expires |
| `Timers.ChangedPeriodNotExpired` | lib/FreeRTOS/src/timers.c:807-820 | a change of period is never reported as expired already |
| `Timers.ReloadTime` | lib/FreeRTOS/src/timers.c:874-899 | the wrapped reload test at a rollover tells whether the timer expires once more in the ending epoch |
| `Timers.BlockTime` | lib/FreeRTOS/src/timers.c:589-600 | the wrapped block time reaches exactly to the earliest expiry if that is in the current list, and exactly to the next rollover otherwise, which comes before any expiry in the overflow list; at a rollover that is no time |
| `TimerModel.DrainOneUsesSlack` | lib/FreeRTOS/src/timers.c:868-908 | each round of the rollover loop uses up some of the ticks left in front of the boundary, so the loop ends |
| `TimerRuns.DrainKeepsInv` | lib/FreeRTOS/src/timers.c:857-908 | after draining, every listed timer expires in the new epoch |
| `TimerRuns.StepKeepsInv` | lib/FreeRTOS/src/timers.c:559-853 | every sample, turn, command and post keeps the epoch invariant: each running timer is listed once, expires in the epoch of the last sample or in the next, and is marked active |
| `TimerRuns.RunKeepsInv` | lib/FreeRTOS/src/timers.c:523-556 | the same over every run, and no callback ever runs before its true expiry |
| `TimerRuns.StartBegins` | lib/FreeRTOS/src/timers.c:381-430 | posting the start command of an idle auto-reload timer begins its chain |
| `TimerRuns.ExactlyOnce` | lib/FreeRTOS/src/timers.c:482-520 | over every run without further commands for the timer: the callbacks so far were due at the first k expiries, on the normal, catch-up and rollover paths; the timer is listed for expiry k+1, or has exactly one start command queued as of expiry k, if and only if no restart of it has been lost to a full queue; after a loss it is never listed, queued or called back again |
| `TimerRuns.SampleMembers` | lib/FreeRTOS/src/timers.c:857-913 | after a rollover exactly the timers of the new epoch are listed |
| `TimerRoom.TurnLoses` | lib/FreeRTOS/src/timers.c:482-520 | a turn of the daemon loses a restart if and only if the commands queued and the restarts it has to send (all of a rollover, or one for a head that is a period late) are together more than the queue holds; otherwise all of them are queued |
| `TimerRoom.CommandLoses` | lib/FreeRTOS/src/timers.c:739-793 | the same for a command, once it has left its own place in the queue: it may have to send the restarts of a rollover and, for a start that comes too late, one of its own |
| `TimerRoom.StepLoses` | lib/FreeRTOS/src/timers.c:482-853 | the same for every step: turn, command or post |
| `TimerRoom.RunLoses` | lib/FreeRTOS/src/timers.c:482-853 | a run, with whatever is posted between its steps, has lost a restart of any timer if and only if one of its steps had no room for what it had to send |
| `TimerRoom.CanLose` | lib/FreeRTOS/src/timers.c:559-609 | the next turn can lose a restart, at some time at which the daemon may read the clock, if and only if the commands queued and the most that it can have to send are together more than the queue holds |
| `TimerSteps.HistoryKeepsSound` | lib/FreeRTOS/src/timers.c:482-913 | with commands arriving at any moment, also between taking a timer off its list or a command off the queue and what is done with it, the service is in order once what is in hand is counted in |
| `TimerSteps.RoomKept` | lib/FreeRTOS/src/timers.c:482-913 | no restart is lost in any history in which commands queued or in hand and auto-reload timers listed or in hand are no more than the queue holds at the start, and fewer whenever a command arrives, from a callback or in the middle of a step too; sufficient, not necessary |
| `TimerSteps.ExactlyOnceThroughout` | lib/FreeRTOS/src/timers.c:482-853 | the exactly-once promise at every moment of such histories, whatever the load: the timer is listed or in hand for its next expiry, or its one start command is queued or in hand, if and only if no restart of it has been lost |
| `TimerSteps.ExactlyOnceWithRoom` | lib/FreeRTOS/src/timers.c:482-853 | with room for whatever arrives, at any moment, an auto-reload timer is on course for ever: the exactly-once promise without exception |
| `TimerSteps.StepInPieces` | lib/FreeRTOS/src/timers.c:523-853 | each turn and each command of TimerRuns is a history of such pieces with nothing arriving in between |
| `TimerProgress.CommandUsesWork` | lib/FreeRTOS/src/timers.c:739-853 | carrying out a command leaves less work to do until the clock passes a limit, whatever it queues or lists and whatever rollover it finds |
| `TimerProgress.CommandsEnd` | lib/FreeRTOS/src/timers.c:709-854 | the loop over the queue ends: with nothing else posted and no reading beyond the limit the queue is empty after at most as many commands as there is work |
| `TimerRoom.RestartLost` | lib/FreeRTOS/src/timers.c:495-504 | an input that loses a restart: ten commands for another timer are queued when a timer is a period late |
| `TimerActive.StepRight` | lib/FreeRTOS/src/timers.c:482-913 | the ACTIVE bit agrees with being listed after a step if and only if the step is not one of four kinds (an expiry dealt with at a rollover, a restart sent, a late start, an unknown command for a listed timer), and the bit agreed before or the step is a known command for the timer |
| `TimerActive.RunRight` | lib/FreeRTOS/src/timers.c:482-913 | over every run that begins with the two in agreement: they agree at the end if and only if every step that broke the agreement has been followed by a command that mends it |
| `TimerActive.RolloverKeepsBit` | lib/FreeRTOS/src/timers.c:880-907 | an input at which a one-shot timer ends active and unlisted: it expires just before a rollover and is read after it |
| `TimerActive.LateStartKeepsBit` | lib/FreeRTOS/src/timers.c:775-793 | and another: its start command comes when it should have expired already |
| `TimerRuns.DuesExact` | lib/FreeRTOS/src/timers.c:482-520 | expiry j of a timer started at s with period P is s + jP: no drift |
| `TimerOnce.OneShotOnce` | lib/FreeRTOS/src/timers.c:482-520 | the same for a one-shot timer, over every run without further commands for it: it has called back exactly once, for its start plus its period, and is neither listed nor queued; or it has not, and is listed for then or its start is still queued; on the normal, rollover and late-start paths |
| `TimerOnce.OneShotThroughout` | lib/FreeRTOS/src/timers.c:482-913 | and at every moment, with commands for other timers arriving while the daemon has something in hand |
| `TimerOnce.OnceBegins` | lib/FreeRTOS/src/timers.c:381-430 | posting the start command of an idle one-shot timer is the beginning of that |
| `TimerOnce.CommandBeginsOnce` | lib/FreeRTOS/src/timers.c:739-820 | and so is any start, reset or change of period that is carried out for it |
| `TimerCommands.TurnCalls` | lib/FreeRTOS/src/timers.c:482-616 | the callbacks of a turn, for timers of both kinds: in the same epoch that of the first timer if it has expired, and no other; at a rollover those of all timers listed to expire before it, and none for a later expiry |
| `TimerCommands.CommandEffect` | lib/FreeRTOS/src/timers.c:709-854 | what each command number does to its timer: a start or reset lists it for a period after the time in the message or, if that is past, calls back at once; a change of period lists it from now with the new period; a stop or delete takes it off; an allocated timer is freed by a delete; ACTIVE bit and period after each |
| `TimerCommands.CommandLeavesOthers` | lib/FreeRTOS/src/timers.c:709-854 | any other timer sees of a command only that the time is read |
| `TimerCommands.CommandBegins` | lib/FreeRTOS/src/timers.c:739-820 | a start, reset or change of period begins the expiries of an auto-reload timer anew: from the time in the message, or from now with the new period |
| `TimerCommands.LeftAlone` | lib/FreeRTOS/src/timers.c:523-556 | a timer that is neither listed nor queued is not called back or listed in any run in which no command for it is posted |
| `TimerCommands.QueueInOrder` | lib/FreeRTOS/src/timers.c:381-430 | first come, first served: whatever is sent goes behind what is queued, and is dropped exactly if ten commands are queued |
| `Timers.TimerDaemon.GenericCommand` | lib/FreeRTOS/src/timers.c:381-430 | a command is appended to the queue, or dropped if the queue is full |
| `Timers.TimerDaemon.InsertTimerInActiveList` | lib/FreeRTOS/src/timers.c:668-706 | puts the timer in true expiry order into the list of its epoch, or reports that it is due |
| `Timers.TimerDaemon.SwitchTimerLists` | lib/FreeRTOS/src/timers.c:857-913 | deals with all expiries in front of the rollover, reloads included, then exchanges the lists; refines the drain of the one-list model |
| `Timers.TimerDaemon.SampleTimeNow` | lib/FreeRTOS/src/timers.c:645-665 | detects exactly the rollovers of the tick count and switches the lists then |
| `Timers.TimerDaemon.ProcessExpiredTimer` | lib/FreeRTOS/src/timers.c:482-520 | refines the expiry step of the model: callback for timers of either kind, and reload by list or by command |
| `Timers.TimerDaemon.GetNextExpireTime` | lib/FreeRTOS/src/timers.c:619-642 | the expiry at the head of the current list, or 0 and the empty flag |
| `Timers.TimerDaemon.ProcessTimerOrBlockTask` | lib/FreeRTOS/src/timers.c:559-616 | one turn: deals with the first timer if it has expired and blocks if not; exactly until the earliest expiry if that is in the current list, otherwise exactly until the next rollover, and without limit only if no timer is running |
| `Timers.TimerDaemon.ProcessCommand` | lib/FreeRTOS/src/timers.c:732-851 | one received command, of every kind, refines the command step of the model |
| `Timers.TimerDaemon.ProcessReceivedCommands` | lib/FreeRTOS/src/timers.c:709-854 | the queue is worked off in order, until it is empty or the given readings of the tick count are used up; it is empty at the end if there are as many readings as there is work until the last of them |
| `StreamSpec.LengthRoundTrip` | lib/FreeRTOS/src/stream_buffer.c:661-710 | the four length bytes give back the length |
| `StreamSpec.SendMessage` | lib/FreeRTOS/src/stream_buffer.c:661-710 | a message is stored with its length in front, if both fit, or nothing is |
| `StreamSpec.SendReports` | lib/FreeRTOS/src/stream_buffer.c:661-710 | a send reports success if and only if the message was stored, but for an empty message, which is stored and reported as nothing |
| `StreamSpec.ReceiveMessage` | lib/FreeRTOS/src/stream_buffer.c:817-967 | a receive takes the first message byte for byte; with too small a buffer, and for a next-length query, the contents stay as they are |
| `StreamSpec.SendTakes` | lib/FreeRTOS/src/stream_buffer.c:661-710 | a send to a stream stores the front of the data and reports how much: all of it, unless the buffer is full afterwards |
| `StreamSpec.ReceiveTakes` | lib/FreeRTOS/src/stream_buffer.c:918-967 | a receive from a stream hands out the front of the contents: as many bytes as asked for, unless the buffer is empty afterwards |
| `StreamSpec.MessagesInOrder` | lib/FreeRTOS/src/stream_buffer.c:506-967 | for every run of atomic sends and receives the messages received are those sent, in order and byte for byte |
| `StreamSpec.StreamInOrder` | lib/FreeRTOS/src/stream_buffer.c:506-967 | the same for the bytes of a stream buffer |
| `StreamBuffers.StreamBuffer.SpacesAvailable` | lib/FreeRTOS/src/stream_buffer.c:470-491 | in 32-bit arithmetic: spaces plus unread bytes make xLength - 1 |
| `StreamBuffers.StreamBuffer.BytesInBuffer` | lib/FreeRTOS/src/stream_buffer.c:1189-1206 | the number of unread bytes |
| `StreamBuffers.StreamBuffer.WriteBytes` | lib/FreeRTOS/src/stream_buffer.c:1088-1131 | appends the bytes, around the end of the array if need be, and overwrites none unread |
| `StreamBuffers.StreamBuffer.ReadBytes` | lib/FreeRTOS/src/stream_buffer.c:1134-1186 | takes the first bytes, around the end of the array if need be |
| `StreamBuffers.StreamBuffer.WriteMessage` | lib/FreeRTOS/src/stream_buffer.c:661-710 | refines the send of the byte-queue model in both modes |
| `StreamBuffers.StreamBuffer.Send` | lib/FreeRTOS/src/stream_buffer.c:575-584 | a send that does not block: one reading of the space, then the write |
| `StreamBuffers.StreamBuffer.ReadMessage` | lib/FreeRTOS/src/stream_buffer.c:918-967 | refines the receive, with the tail put back if the message does not fit |
| `StreamBuffers.StreamBuffer.Receive` | lib/FreeRTOS/src/stream_buffer.c:784-794 | a receive that does not block: one reading of what is there, then the read |
| `StreamBuffers.StreamBuffer.NextMessageLength` | lib/FreeRTOS/src/stream_buffer.c:817-858 | the length of the next message; the buffer is as before |
| `StreamInterleaving.StepKeepsInv` | lib/FreeRTOS/src/stream_buffer.c:1088-1186 | stream mode, byte by byte, each side with a stale copy of the other's index: every step keeps both sides' reservations apart |
| `StreamInterleaving.SingleWriterSingleReader` | lib/FreeRTOS/src/stream_buffer.c:1088-1206 | under every interleaving the bytes received are a prefix of those sent, the two sides never touch the same cell, and bytes plus spaces are xLength - 1 |
| `StreamInterleaving.CallsTakeAll` | lib/FreeRTOS/src/stream_buffer.c:506-967 | a write takes upon itself all of its data, or what fills the buffer as far as it can see; a read as many bytes as asked for, or all that are there; each does nothing only if there is nothing to do |
| `MessageInterleaving.StepKeepsInv` | lib/FreeRTOS/src/stream_buffer.c:661-967 | message mode, byte by byte: every step keeps the frames in order and in place, except a send that finds room it has not: its reading of the space was taken while the receiver had the tail over a length that it puts back, and it does not fit without those four bytes |
| `MessageInterleaving.BeginsExact` | lib/FreeRTOS/src/stream_buffer.c:661-967 | a send goes on exactly if message and length fit behind what is unread (the receiver not being about to go back), a receive or query exactly if a whole message is there |
| `MessageInterleaving.HarmExact` | lib/FreeRTOS/src/stream_buffer.c:661-967 | exactly the sends that do harm: from any state in which all is well, the bytes can be damaged after this send, with no further send, if and only if it has found room that it has not |
| `MessageInterleaving.UnsafeOverruns` | lib/FreeRTOS/src/stream_buffer.c:661-967 | such a send, with the receiver going back first, runs to its end and leaves more bytes unread than the buffer can hold |
| `MessageInterleaving.MessagesInOrder` | lib/FreeRTOS/src/stream_buffer.c:661-967 | under every interleaving without such a send the messages handed out are the first of those sent, byte for byte, and every unread byte lies in its cell |
| `MessageInterleaving.CarefulInOrder` | lib/FreeRTOS/src/stream_buffer.c:661-967 | what callers can keep to: no message longer than a limit, and no send that begins while a query for the next length, or a receive into a buffer shorter than the limit, is in progress; then messages come out in order under every interleaving |
| `MessageInterleaving.UnsafeSendCorrupts` | lib/FreeRTOS/src/stream_buffer.c:934-950 | it happens from an empty buffer: a literal run with one such send that overwrites the unread byte the tail is on |
| `StreamHandshake.StepKeepsInv` | lib/FreeRTOS/src/stream_buffer.c:535-814 | every step of either side, in stream and message mode, keeps the registration and notification protocol |
| `StreamHandshake.NoLostWakeUp` | lib/FreeRTOS/src/stream_buffer.c:535-814 | in stream and message mode: a receiver asleep with no notification pending faces fewer bytes (of complete messages) than the trigger level, or a sender that has yet to run its completion macro; symmetrically for a sender and the space it needs |
| `StreamHandshake.BlocksExactly` | lib/FreeRTOS/src/stream_buffer.c:535-814 | a receiver that may block goes to sleep exactly if there is nothing it could take, a sender exactly if its send does not fit, and the receiver is notified exactly from the trigger level on; whoever wakes has used the notification up and goes on with the call |
| `StreamHandshake.MutualSleep` | lib/FreeRTOS/src/stream_buffer.c:535-814 | both sides can sleep at once, with only a time-out to wake them, if and only if the send does not fit behind the most that there can be without reaching the trigger level |
| `EventSpec.ItemSplits` | lib/FreeRTOS/src/event_groups.c:311-387 | the bits waited for and the two options packed into an item value come out again |
| `EventSpec.TestExact` | lib/FreeRTOS/src/event_groups.c:671-703 | the test of the code holds if and only if every bit waited for is set, or some bit waited for is, as the call says |
| `EventSpec.StillWaiting` | lib/FreeRTOS/src/event_groups.c:519-610 | a set leaves waiting exactly the waiters whose any/all condition the new bits do not meet |
| `EventSpec.Releases` | lib/FreeRTOS/src/event_groups.c:519-610 | it wakes exactly the others, each with the bits as they were before clearing |
| `EventSpec.Clears` | lib/FreeRTOS/src/event_groups.c:568-604 | it clears exactly the union of what the released clear-on-exit waiters asked for |
| `EventSpec.SetAfter` | lib/FreeRTOS/src/event_groups.c:519-610 | a bit is set after a set if and only if it was set or is in the call, and no waiter whose call is met asked for it to be cleared |
| `EventSpec.OrderIndependent` | lib/FreeRTOS/src/event_groups.c:519-610 | its effect does not depend on the order of the waiting list |
| `EventSpec.WaitAfter` | lib/FreeRTOS/src/event_groups.c:311-402 | a wait answers the bits from before, at once if its call is met; of the bits it waited for each is clear afterwards exactly if the call was met and clears on exit; no other bit changes; a task that blocks is entered with its own call |
| `EventSpec.SyncAfter` | lib/FreeRTOS/src/event_groups.c:191-250 | a sync that completes its bits returns them all and clears them; otherwise it blocks for all of them, to be cleared, or returns what its set left |
| `EventSpec.ClearAfter` | lib/FreeRTOS/src/event_groups.c:461-485 | a bit is set after a clear if and only if it was set and is not in the call; nothing else changes |
| `EventSpec.ResumeAfter` | lib/FreeRTOS/src/event_groups.c:252-308 | a task that ran out of time clears what it waited for exactly if its call is met after all and clears on exit; a task woken by bits clears nothing; each leaves the group as the only one |
| `EventSpec.TimeOutAfter` | lib/FreeRTOS/src/event_groups.c:252-308 | a task that runs out of time leaves the waiting list, as the only one, and is not taken for one that was released |
| `EventSpec.DeleteAfter` | lib/FreeRTOS/src/event_groups.c:613-652 | after a delete nobody waits, and everyone who did will return no bits |
| `EventSpec.StepKeepsInv` | lib/FreeRTOS/src/event_groups.c:191-652 | set, wait, sync, clear, delete, time-out and resumption each keep the invariant |
| `EventSpec.NoSatisfiedWaiterBlocked` | lib/FreeRTOS/src/event_groups.c:191-652 | in every run, between operations no entry of the waiting list has its condition met by the bits |
| `EventSpec.ResumeAnswer` | lib/FreeRTOS/src/event_groups.c:262-302 | a task woken by bits returns bits that meet its condition (or 0 after a delete) and changes nothing; one that timed out returns the present bits |
| `EventGroups.EventGroup.SetBits` | lib/FreeRTOS/src/event_groups.c:519-610 | the traversal, removing entries as it goes, refines the set of EventSpec |
| `EventGroups.EventGroup.WaitBits` | lib/FreeRTOS/src/event_groups.c:311-402 | returns at once, or gives up, or blocks, as EventSpec says |
| `EventGroups.EventGroup.Sync` | lib/FreeRTOS/src/event_groups.c:191-250 | likewise for a rendezvous: bits are set, and cleared again if they complete it |
| `EventGroups.EventGroup.Resume` | lib/FreeRTOS/src/event_groups.c:252-308 | the end of a blocked call, woken or timed out |
| `EventGroups.EventGroup.ClearBits` | lib/FreeRTOS/src/event_groups.c:461-485 | clears the bits and returns the old value |
| `EventGroups.EventGroup.Delete` | lib/FreeRTOS/src/event_groups.c:613-652 | wakes every waiter, with no bits, and frees the group if it was not statically allocated |
| `EventGroups.EventGroup.TestCondition` | lib/FreeRTOS/src/event_groups.c:671-703 | any or all of the bits |
| `Rendezvous.MeetEveryRound` | lib/FreeRTOS/src/event_groups.c:191-308 | n tasks with distinct bits that call sync over and over: in every run a task that has made its k-th call is held back exactly as long as some task has not made its k-th; whoever is released is released with all the bits; a task's bit is set exactly while it waits |
| `Rendezvous.ArrivalAnswer` | lib/FreeRTOS/src/event_groups.c:191-222 | a call returns at once, with all the bits, exactly if all the other tasks are waiting |
| `CoRoutineModel.WakeDueExact` | lib/FreeRTOS/src/croutine.c:247-270 | a tick takes off the delayed list exactly the co-routines whose wake time it is |
| `CoRoutineModel.StepKeepsInv` | lib/FreeRTOS/src/croutine.c:102-305 | creation, delay, tick, event and choice each keep the invariant |
| `CoRoutineModel.OneList` | lib/FreeRTOS/src/croutine.c:159-275 | every co-routine is ready, in the list of its priority, exactly if it is not delayed, and its generic item occurs once in all the lists together |
| `CoRoutineModel.DelayExact` | lib/FreeRTOS/src/croutine.c:159-275 | in every run a co-routine that delays itself for d > 0 ticks and is not woken by an event is asleep exactly as long as fewer than d ticks have passed, and is ready from the very tick on which the delay ends |
| `CoRoutineModel.ServedInTurn` | lib/FreeRTOS/src/croutine.c:278-305 | only the highest ready priority is served, and as many choices as it has co-routines choose each of them once |
| `CoRoutineModel.ServedLast` | lib/FreeRTOS/src/croutine.c:102-275 | a co-routine that becomes ready is served after those that are, except the one served last |
| `CoRoutineModel.OthersInTurn` | lib/FreeRTOS/src/croutine.c:159-194 | when a co-routine delays itself the others are served in the order in which they would have been |
| `CoRoutineModel.CreateReady` | lib/FreeRTOS/src/croutine.c:102-156 | a new co-routine is ready at the priority asked for, or the highest there is; nothing changes for the others |
| `CoRoutineModel.EventReadies` | lib/FreeRTOS/src/croutine.c:197-217 | an event readies the delayed co-routine that it is for, and changes nothing for the others |
| `CoRoutines.EmptyAtSwap` | lib/FreeRTOS/src/croutine.c:229-241 | when the tick count wraps the delayed list is empty, as the comment in the code demands |
| `CoRoutines.Scheduler.Create` | lib/FreeRTOS/src/croutine.c:102-156 | a new co-routine is ready at its priority, cut to the highest there is; without memory for it nothing changes |
| `CoRoutines.Scheduler.AddToDelayedList` | lib/FreeRTOS/src/croutine.c:159-194 | the running co-routine moves to the list of the epoch of its wake time and, if asked, into an event list by priority |
| `CoRoutines.Scheduler.RemoveFromEventList` | lib/FreeRTOS/src/croutine.c:328-350 | the interrupt: of those in an event list the one with the highest priority moves to the pending-ready list, and the answer says whether that is at least the priority of the current co-routine |
| `CoRoutines.Scheduler.CheckPendingReadyList` | lib/FreeRTOS/src/croutine.c:197-217 | readies the pending co-routines in order, and those that interrupts add meanwhile; who stays delayed goes on waiting for its event |
| `CoRoutines.Scheduler.WakeHead` | lib/FreeRTOS/src/croutine.c:248-269 | with an interrupt between the look at the head and the critical section: the co-routine ends up in its ready list only, its event item in no list |
| `CoRoutines.Scheduler.CountTick` | lib/FreeRTOS/src/croutine.c:226-241 | the count goes on by one; at a wrap the lists are exchanged, the old delayed list empty |
| `CoRoutines.Scheduler.CheckDelayedList` | lib/FreeRTOS/src/croutine.c:220-275 | refines as many ticks of the one-list model as the tick count has advanced, across wrap-around and interrupts |
| `CoRoutines.Scheduler.Choose` | lib/FreeRTOS/src/croutine.c:286-301 | finds the highest priority with anything ready and moves its roving index on |
| `CoRoutines.Scheduler.Schedule` | lib/FreeRTOS/src/croutine.c:278-305 | the whole scheduler call, with interrupts in between, refines events, ticks and a choice of the model |
| `LoggerModel.FlushSees` | src/Logger.cpp:22-44 | for every run of writes from an empty buffer, however long: what a flush goes through is, at each place, the last character written to that cell |
| `LoggerModel.NothingLost` | src/Logger.cpp:22-44 | up to 4096 characters nothing is lost or reordered |
| `LoggerModel.PayloadAll` | src/Logger.cpp:133-190 | the chunks printed put out every character if and only if none of them is NUL |
| `LoggerModel.PayloadMore` | src/Logger.cpp:133-190 | a NUL costs the rest of its chunk of 255 characters, and no more |
| `LoggerModel.FlushEmpties` | src/Logger.cpp:133-190 | after a flush nothing is unread, the count is 0, and the next writes begin afresh |
| `LoggerModel.FirstInFirstOut` | src/Logger.cpp:22-190 | a flush prints exactly what was written, for all runs of NUL-free writes of n characters in all, if and only if n is at most 4096 |
| `LoggerModel.CountAfter` | src/Logger.cpp:192-201 | after a run of writes of n characters in all from an empty buffer the unread count is n if and only if the end of the buffer has not been reached, or n is 4096 |
| `LoggerModel.CountWrong` | src/Logger.cpp:192-201 | it can be wrong: one character, a flush, and 4095 more |
| `LoggerModel.CountExact` | src/Logger.cpp:192-201 | the unread count is right if and only if the buffer is not marked full, or write and read positions agree |
| `LogBuffer.Logger.Write` | src/Logger.cpp:22-44 | refines the write of the model and keeps: not full implies read position <= write position |
| `LogBuffer.Logger.GetUnreadCount` | src/Logger.cpp:192-201 | 4096 if the buffer is marked full, and otherwise the distance from read to write position around the buffer |
| `LogBuffer.Logger.Flush` | src/Logger.cpp:120-190 | prints the unread characters in chunks of 255 between header and trailer, or the empty notice, and empties the buffer |
| `LogBuffer.Logger.Clear` | src/Logger.cpp:203-209 | the buffer is empty and zeroed |

## Left out

- `tasks.c`, `queue.c`, `port.c`: not modelled. Suspending the scheduler and critical sections make steps atomic; the timer command queue is a bounded FIFO of 10; notifying and waiting for a notification follow their documented meaning.
- The lists inside timers, event groups and co-routines are sequences with the operations of ListSpec; that the pointer code of list.c does those operations is proved once, in IntrusiveList. The count of a list is a natural number, since a list cannot have 2^32 items.
- Memory in Heap4 is a pair of sequences indexed by address, one for each field of a block header; payload bytes are the same words. Headers lie at 8-aligned addresses, so no two of them overlap. The malloc-failed hook and tracing are left out.
- `Heap4.Allocator.Free`: requires of a pointer that is not live that its header does not look allocated, because the header test of the code cannot tell such a pointer from a live one.
- `Timers.TimerDaemon.GenericCommand`: does not block. A send with block time that succeeds is the same append at a later moment at which there is room; one that fails changes nothing.
- `Timers.TimerDaemon.ProcessReceivedCommands`: stops when the readings it is given run out. The loop of the code has no bound, since carrying out a command can queue another as long as the clock goes on; TimerProgress bounds it by the last reading.
- Timer callbacks are recorded, not run: what a callback does to timers appears as commands that arrive (in TimerSteps, while the timer is in hand; its record is made together with the restart). Timer names, IDs, creation, getters and `vTimerSetReloadMode` are left out.
- Pended function calls (negative command identifiers) are compiled out in this configuration and not modelled.
- Times between two readings of the tick count, and ages of start commands, are below 2^32 ticks, without which the wrapped comparisons mean nothing; with no timer running any time may pass.
- The daemon's periods are positive, as `xTimerCreate` and the period change assert.
- `StreamBuffers.StreamBuffer.Send`: does not block and does not notify; the waiting loop and the completion macro are in StreamHandshake.
- `StreamBuffers.StreamBuffer.Receive`: likewise. The caller's receive buffer is a returned sequence.
- `StreamHandshake.NoLostWakeUp`: a stream send, the length of a message and its body each move in one step; the bytes are in the interleaving modules. The trigger level is fixed, and messages are not empty.
- `StreamHandshake.MutualSleep`: within the same limits.
- `StreamInterleaving.SingleWriterSingleReader`: is about stream mode; message mode is in MessageInterleaving, for messages that are not empty.
- The FromISR variants of stream buffer, event group and timer calls, and static allocation, run the same code in other brackets and are left out.
- Event groups: the priorities of woken tasks are left out. Deferred set and clear callbacks are the plain calls.
- Rendezvous: nobody but the n tasks uses the group, and their calls do not time out.
- Co-routines: the co-routine functions themselves appear as later calls. Delays are positive, as `crDELAY` and the queue calls check.
- Logger: formatting and truncation of messages (`snprintf`), which give `_write` at most 256 characters; UART failures.
- Ethernet, network, TCP server, file system, shell and LED code: plumbing around libraries that are not part of this model.
