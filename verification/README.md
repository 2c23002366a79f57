# Concurrency and state of six Linux driver exercises, verified

This project models six drivers of the repository and proves what their locks, timers, queues and
buffers guarantee, for every schedule, every command sequence and every parameter value.

How the drivers are modelled:

- **Interleavings.** Where threads, timers or callbacks run at the same time, the driver is a state
  with a step function: one step is one shared access, one field assignment, one copied byte or one
  call of a kernel primitive. A run is an arbitrary list of steps. Kernel primitives (spinlock, mutex,
  completion, timer, wait queue, work queue) are explicit parts of the state. Memory is sequentially
  consistent.
- **Handlers.** Each handler is also written in its own form, as a method that assigns the fields of a
  class, fills an array byte by byte or runs the driver's loop. Its contract equates the new state with
  the specification function that the lemmas are about.
- **Kernel calls.** `timer_delete_sync` waits until the callback does not run and takes the timer off
  its queue; `cancel_delayed_work_sync` takes the work off its queue, refuses queueing while it waits,
  and returns when the work function does not run.
- **Inputs.** Parsed commands, return values of kernel calls, user memory (how many bytes of it can be
  read or written) and the passing of time are parameters.

| files | driver |
|---|---|
| `spin_*.dfy` | two workers incrementing a shared counter, with and without the spinlock (`Sir_code/DD/spinlocks.c`) |
| `multi_char*.dfy` | several buffered character devices (`Sir_code/DD/multiple_char.c`) |
| `rs_timer*.dfy` | the low-resolution timer's commands and callback (`Sir_code/DD/rs_timer.c`) |
| `delayed_work*.dfy` | delays and deferred work behind one mutex (`Sir_code/Deferred function/delay.c`) |
| `wait_queue*.dfy` | the one-slot mailbox (`Sir_code/DD/wait_queue.c`) |
| `hr_timer.dfy` | the bounded high-resolution timer (`Sir_code/DD/high_rs_timer.c`) |
| `modular.dfy` | remainders, for machine words |
| `common.dfy` | error numbers, the 32-bit word and small helpers |

The step functions are `SpinMachine.WorkerStep` and `InitStep`, `MultiChar.Apply`,
`MultiCharThreads.Micro` and `Step`, `MultiCharHistory.FleetStep`, `RsTimer.Execute` and `Callback`,
`RsTimerStop.WriterStep` and `CallbackStep`, `DelayedWork.ThreadStep` and `WorkerStep`,
`WaitQueue.ThreadStep`, `WaitQueueBytes.ThreadStep`, and `HrTimer.Callback`.

Where the code differs from what its comments or design suggest, the code is modelled and the exact
condition is proved:

- The final comparison of the unlocked counter run detects races exactly unless the possible loss is a
  whole counter word (`SpinOutcomes.RaceDetectorExact`).
- A write to a character device raises the data size even when it writes nothing, so an empty list of
  writes and one empty write differ past the end (`MultiCharChunks.NoWriteIsNotAnEmptyWrite`).
- A write whose user copy faults leaves bytes behind the data size, and a later hole shows them
  (`MultiChar.ZeroTailKeptUnlessResidue`, `ResidueShowsInHole`); the reference of `MultiCharFiles`
  lists such writes too, as not counting for the size. The Linux contract that
  `copy_from_user` zero-fills what it could not fetch is used here.
- Line 226 of `multiple_char.c` names a variable that does not exist; the count computed at line 222
  is meant and modelled.
- The timer's status can go wrong when a command and the callback overlap: a start, one-shot or period
  change can end with the timer queued while the mode says "stopped", or with a next expiry that is not
  the queued one. It is not only a command that overlaps a callback already running: a start begun with
  the callback idle is lost to an older queued timer that fires before the start is through
  (`RsTimerOverlap.StartLost`, from loading on). A start or one-shot keeps the status in every
  interleaving exactly when, as it begins, nothing is queued and no callback is before its last
  statement; a period change exactly when nothing is queued and the mode is not "periodic"; every other
  command always (`RsTimerOverlap.StartExact`, `CommandExact`). A `stop` that has returned makes every
  command safe (`SafeAfterStop`).
- The callback can run more often than jiffies pass, although every expiry is computed at least a jiffy
  ahead: a command held up until its expiry has passed queues it late (`RsTimerRate.TwoInOneJiffy`).
  Whatever is commanded and however it interleaves, callbacks never outnumber the jiffies passed exactly
  when no commanded time converts to a single jiffy (`RsTimerPace.ClockBoundExact`); without that
  condition they are never more than twice as many (`RsTimerPace.TwoPerJiffy`).

## Model

| member | source | states |
|---|---|---|
| SpinLocked.LockedRun | Sir_code/DD/spinlocks.c:68-81 | with the lock, in every state of every run: at most one worker is in the critical section, the counter is the sum of the completed increments as a machine word, and a verdict, once given, is "correct" |
| SpinLocked.NothingBeforeStart | Sir_code/DD/spinlocks.c:62-62 | as long as the start signal has not been given, nobody has accessed the counter or completed an increment |
| SpinLocked.ProgressAndTermination | Sir_code/DD/spinlocks.c:62-113 | no deadlock: after any run somebody can make a non-waiting move unless init has returned; no livelock: any run has at most 16 * loops + 20 such moves, in both modes |
| SpinLocked.CanFinish | Sir_code/DD/spinlocks.c:167-180 | every state of a run can be continued until init returns |
| SpinLocked.FailedCreation | Sir_code/DD/spinlocks.c:135-145 | init fails exactly when a thread creation it comes to does; then, in every continuation, no thread is woken, no start signal and no verdict is given, and the counter stays zero |
| SpinRace.RacedByStore | Sir_code/DD/spinlocks.c:93-103 | a write makes the history of accesses racy exactly when the other worker wrote since the read it completes |
| SpinRace.CounterExactIffNoRace | Sir_code/DD/spinlocks.c:93-103 | over integers, a finished run has the expected counter if and only if no worker's write fell between the other's read and matching write; otherwise it is lower, but never below two (one for one loop) |
| SpinOutcomes.WrappedRun | Sir_code/DD/spinlocks.c:93-103 | a run with a wrapping counter makes the same accesses as the run over integers and ends with its counter reduced to the word |
| SpinOutcomes.UnlockedOutcomes | Sir_code/DD/spinlocks.c:68-104 | without the lock a final counter is possible if and only if it is, reduced to the word, a number from two (one for a single loop, zero for none) to twice the loop count |
| SpinOutcomes.RaceDetectorExact | Sir_code/DD/spinlocks.c:182-190 | init's verdict is "correct" for exactly the race-free runs if and only if the lock is on or twice the loop count is less than the counter word plus the least outcome |
| SpinDemo.Demo.WorkerFunction | Sir_code/DD/spinlocks.c:68-113 | the counted loop, run alone, adds the loop count and is the interleaving machine's solo schedule of the same statements |
| SpinDemo.Demo.Bump | Sir_code/DD/spinlocks.c:70-104 | the loop body, in both branches, adds one and leaves the lock free |
| MultiChar.SeekAcceptsTrueSum | Sir_code/DD/multiple_char.c:275-331 | for every 64-bit offset the wrapped sum is accepted exactly when the true sum lies in the buffer, and then it is the true sum |
| MultiChar.PositionStaysInside | Sir_code/DD/multiple_char.c:139-331 | every call from a position inside the buffer leaves a position inside the buffer |
| MultiChar.ZeroTailKeptUnlessResidue | Sir_code/DD/multiple_char.c:209-245 | a call keeps all bytes at and past the data size zero if and only if it is not a faulting write that had fetched a nonzero byte for such a place |
| MultiChar.ResidueShowsInHole | Sir_code/DD/multiple_char.c:226-233 | an instance: the residue of a faulting write is read back from a hole |
| MultiCharDevice.Dev.constructor | Sir_code/DD/multiple_char.c:420-445 | a device starts zero-filled, empty and unlocked |
| MultiCharDevice.Dev.CopyToUser | Sir_code/DD/multiple_char.c:156-156 | the copy delivers the buffer's bytes up to the first that user space does not take, and succeeds exactly when it takes all |
| MultiCharDevice.Dev.CopyFromUser | Sir_code/DD/multiple_char.c:226-226 | the copy, done in place, overlays the buffer with the fetched bytes and zeros for the rest, touching nothing else |
| MultiCharDevice.Dev.Read | Sir_code/DD/multiple_char.c:117-182 | the read handler is `ReadCall`, changes nothing in the device and unlocks on every path |
| MultiCharDevice.Dev.Write | Sir_code/DD/multiple_char.c:187-258 | the write handler is `WriteCall` on buffer, data size, position and return value, and unlocks on every path |
| MultiCharDevice.File.Llseek | Sir_code/DD/multiple_char.c:263-332 | the seek handler is `SeekCall` on position and return value, leaves the device alone and unlocks on every path |
| MultiCharThreads.FinishIsApply | Sir_code/DD/multiple_char.c:136-257 | the handler's small steps from lock to unlock, undisturbed, have the handler's whole effect and reply |
| MultiCharThreads.Linearizable | Sir_code/DD/multiple_char.c:117-332 | for any threads, minors and byte-wise interleaving: every reply is the one of the sequential execution in mutex order, every unlocked device is that execution's device, every call in the order is answered or still inside |
| MultiCharThreads.OrderGrows | Sir_code/DD/multiple_char.c:136-136 | the sequential order is only extended at its end, so a call answered before another begins precedes it |
| MultiCharThreads.OtherMinorsUntouched | Sir_code/DD/multiple_char.c:122-124 | in every run of the threads, at every moment, a minor that no call names is as it was loaded, buffer and size |
| MultiCharFiles.CallMeans | Sir_code/DD/multiple_char.c:139-331 | on a device that holds a list of writes, each call, faulting ones included, replies as the list says and leaves the device holding the extended list |
| MultiCharFiles.SparseFiles | Sir_code/DD/multiple_char.c:78-331 | over every history on any minors and open files, with any faults: replies are those of files that are only their lists of writes, each byte is the latest write covering it or zero, the data size is the furthest end of a write that did not fault, positions stay inside the buffer; without residue of a fault the bytes past the data size are zero |
| MultiCharFiles.OpenedFile | Sir_code/DD/multiple_char.c:77-97 | an opened file is a new one on its minor at position zero, and the first call through it is the call at position zero and moves no other file |
| MultiCharFiles.NothingToOpen | Sir_code/DD/multiple_char.c:77-97 | opening a minor that does not exist, and a call through a file that is not open, change nothing |
| MultiCharFiles.SizesKept | Sir_code/DD/multiple_char.c:239-242 | in every history, with any faults, no minor's data size ever falls |
| MultiCharHistory.ConcurrentFiles | Sir_code/DD/multiple_char.c:117-332 | for any threads, minors, open files, faults and byte-wise interleaving, each open file used by one call at a time: the calls in mutex order are a history in which every reply given is the one the lists of writes give, every unlocked device holds exactly its list of writes, and every open file not in use is at the position that history leaves it at |
| MultiCharHistory.CallBegins | Sir_code/DD/multiple_char.c:117-136 | a call by an idle thread through an open file not in use begins, on that file's minor and at its position |
| MultiCharHistory.CallAnswered | Sir_code/DD/multiple_char.c:136-332 | in every state of a run a call that waits for its mutex can be brought to its answer, which is the one its place at the end of the history determines |
| MultiCharChunks.ChunkedWrites | Sir_code/DD/multiple_char.c:209-245 | any nonempty list of successive writes, with remainders resubmitted, leaves buffer, size and position of one write of the whole |
| MultiCharChunks.NoWriteIsNotAnEmptyWrite | Sir_code/DD/multiple_char.c:236-242 | no write at all equals one empty write exactly when the position is not past the data, or is at the capacity |
| MultiCharChunks.ChunkedReads | Sir_code/DD/multiple_char.c:139-169 | successive reads of any counts deliver, joined, the stored bytes from the position, and move right behind them |
| MultiCharChunks.ReadsReachEnd | Sir_code/DD/multiple_char.c:139-146 | as many positive reads as bytes are left deliver all of them, and then every read is at end of file |
| MultiCharLedger.AcquiredOnceMoreThanReleased | Sir_code/DD/multiple_char.c:494-523 | in a ledger that follows the kernel's rules a resource is alive exactly when it was acquired once more than released |
| MultiCharLedger.FailedLoadReleasesOnce | Sir_code/DD/multiple_char.c:494-526 | the trace of a failed load acquires each resource at most once and releases it exactly as often |
| MultiCharLedger.FirstFailureCode | Sir_code/DD/multiple_char.c:367-526 | the return value of a load, never positive, straight from the outcomes of the kernel calls |
| MultiCharLedger.Kernel.CleanupDevices | Sir_code/DD/multiple_char.c:495-508 | the cleanup loop releases the finished minors in the opposite order, never before a dependent |
| MultiCharLedger.Kernel.SetUpMinor | Sir_code/DD/multiple_char.c:454-485 | one minor: a failed cdev leaves nothing, a failed node takes its cdev back, success adds both |
| MultiCharLedger.Kernel.SetUpMinors | Sir_code/DD/multiple_char.c:433-508 | the device loop for any number of minors returns the first failure's code and leaves only the outer stages alive |
| MultiCharLedger.Kernel.MultiCharInit | Sir_code/DD/multiple_char.c:361-527 | for every number of minors and every failing call: the return value is zero exactly when all calls succeed, and otherwise the first failure's code (the kernel's for the number range, the class and a cdev, -12 for the array, -22 for a node); a failed load's trace is what was taken and its mirror, with nothing alive; a successful one holds everything; no rule is broken |
| MultiCharLedger.Kernel.MultiCharExit | Sir_code/DD/multiple_char.c:532-567 | unloading releases everything, the minors in order, each node before its cdev, and then array, class and numbers; never before a dependent |
| RsTimer.StatusConsistent | Sir_code/DD/rs_timer.c:106-338 | after any commands, rejected ones included, and expiries: the timer is queued exactly when the mode is not stopped, and the stored next expiry is the queued one, or zero |
| RsTimer.CounterCounts | Sir_code/DD/rs_timer.c:91-91 | under any commands the tick counter is the number of callbacks since the last reset, as a 32-bit pattern |
| RsTimer.OneshotTicksOnce | Sir_code/DD/rs_timer.c:116-123 | an undisturbed one-shot timer ticks once, not before its expiry, and is then stopped and off the queue |
| RsTimer.TickBound | Sir_code/DD/rs_timer.c:67-78 | with handlers that do not overlap, under any commands, there are never more callbacks than jiffies since loading |
| RsTimer.PeriodicRate | Sir_code/DD/rs_timer.c:106-115 | after an undisturbed start, k ticks take at least k delays |
| RsTimer.PromptRate | Sir_code/DD/rs_timer.c:106-115 | fired promptly, a started timer ticks exactly once per delay |
| RsTimer.NeverFarAhead | Sir_code/DD/rs_timer.c:67-78 | no command or callback arms the timer more than a quarter word ahead |
| RsTimer.RemainingAfterRun | Sir_code/DD/rs_timer.c:164-176 | for every jiffies value the reported remaining time is the true one if and only if the kernel is not half a word or more late, modulo the word |
| RsTimerCommands.RefusedCommands | Sir_code/DD/rs_timer.c:228-350 | a zero time or an unknown word returns -22 and changes nothing, every other command returns success |
| RsTimerCommands.TicksAfterCommand | Sir_code/DD/rs_timer.c:228-338 | from every state, fired promptly: a start ticks once per delay, a one-shot once at its delay, a period change does so to a queued timer as its mode says and queues nothing, a stop ends all ticks, reset and refused commands leave them as they were |
| RsTimerCommands.ResetClears | Sir_code/DD/rs_timer.c:326-334 | reset clears the counter and the moment of the last tick and nothing else |
| RsTimerCommands.StatusShows | Sir_code/DD/rs_timer.c:80-338 | from loading on, after any commands and expiries: the period is the latest accepted time, the mode is what the latest command or a run-out has left, counter and last tick are those since the last reset |
| RsTimerDevice.TimerLab.MakeExpiryFromMs | Sir_code/DD/rs_timer.c:67-78 | the expiry is the converted delay, at least one jiffy, ahead of now |
| RsTimerDevice.TimerLab.MyWrite | Sir_code/DD/rs_timer.c:228-350 | the command handler is `Execute` on all variables, the timer and the error code: -22 and no change for a zero time or an unknown word, success otherwise |
| RsTimerDevice.TimerLab.TimerCallback | Sir_code/DD/rs_timer.c:80-124 | the callback of a due timer is the machine's expiry event |
| RsTimerDevice.TimerLab.MyRead | Sir_code/DD/rs_timer.c:164-176 | in any state the status read reports the mode, the queue and the wrapped remaining time; where the status is consistent, pending agrees with the mode, and the remaining time is the true one if and only if the kernel is not half a word late |
| RsTimerStop.StopIsFinal | Sir_code/DD/rs_timer.c:309-320 | from any state, with the callback at any statement: once stop has returned, the timer is off the queue, the callback idle, the mode stopped, the next expiry zero, and no callback runs until a later start or one-shot |
| RsTimerStop.StopReturns | Sir_code/DD/rs_timer.c:313-320 | from every state of a stop command a continuation, of no more steps than the callback and stop have statements left, returns from it |
| RsTimerStop.StopNotStarved | Sir_code/DD/rs_timer.c:309-320 | once stop has set the mode, in every interleaving the callback is fired at most once more and executes at most what it has left and one whole callback: the wait cannot be starved |
| RsTimerStop.CallbackInFull | Sir_code/DD/rs_timer.c:80-124 | in every interleaving each callback that is fired is executed in full and no two at once |
| RsTimerStop.ReadOnce | Sir_code/DD/rs_timer.c:93-114 | the callback reads mode and period once: whatever is commanded after that, it acts on what it has read and queues the expiry it has computed |
| RsTimerStop.RearmsDuringStop | Sir_code/DD/rs_timer.c:106-115 | the hard case occurs: a callback that had read "periodic" rearms after stop has set the mode |
| RsTimerStop.UndisturbedCommand | Sir_code/DD/rs_timer.c:228-338 | statement by statement and left alone, every command is the atomic command |
| RsTimerStop.UndisturbedCallback | Sir_code/DD/rs_timer.c:91-123 | statement by statement and left alone, the callback is the atomic callback |
| RsTimerOverlap.StartExact | Sir_code/DD/rs_timer.c:228-273 | from any state: every interleaving of an accepted start or one-shot ends with queue, mode and next expiry in agreement if and only if, as it begins, the timer is not queued and no callback is before its last statement |
| RsTimerOverlap.CommandExact | Sir_code/DD/rs_timer.c:228-350 | from a consistent state the same is decided for every command: a period change needs nothing queued and a mode other than periodic, stop, reset and rejected commands need nothing |
| RsTimerOverlap.SafeAfterStop | Sir_code/DD/rs_timer.c:309-320 | after a stop that has returned, whatever it was begun in, every interleaving of any one command keeps the status |
| RsTimerOverlap.StatusUnderOverlap | Sir_code/DD/rs_timer.c:80-338 | from loading on, with commands, callbacks and time interleaved statement by statement and each command begun when that is safe: whenever no handler is under way, the timer is queued exactly when the mode is not stopped, and the next expiry is the queued one or zero |
| RsTimerOverlap.QueuedIsShown | Sir_code/DD/rs_timer.c:106-123 | from a consistent state and without commands, at every statement of the callback the expiry of a queued timer is the saved one |
| RsTimerOverlap.StartLost | Sir_code/DD/rs_timer.c:106-123 | a failing run from loading: one whole one-shot command, then a start begun with the callback idle, ends with a wrong status |
| RsTimerRate.FireBound | Sir_code/DD/rs_timer.c:67-123 | from loading on, in every interleaving of statements: callbacks never exceed the jiffies passed plus the times a command queued an expiry that was already due |
| RsTimerRate.TwoInOneJiffy | Sir_code/DD/rs_timer.c:228-246 | the late arm is needed in that bound: a run from loading with one late arm and two callbacks in one jiffy |
| RsTimerPace.ClockBoundExact | Sir_code/DD/rs_timer.c:67-123 | for any set of times commands may ask for: callbacks never outnumber the jiffies since loading, in all interleavings of all such commands, if and only if none of these times converts to a single jiffy |
| RsTimerPace.ClockBoundExactForAll | Sir_code/DD/rs_timer.c:67-123 | the same with every time allowed |
| RsTimerPace.TwoPerDelay | Sir_code/DD/rs_timer.c:67-123 | in every interleaving in which no commanded time is shorter than d jiffies, two callbacks need d jiffies since loading, and an odd one out as many again |
| RsTimerPace.TwoPerJiffy | Sir_code/DD/rs_timer.c:67-78 | in every interleaving, with no condition, callbacks are at most twice the jiffies since loading |
| RsTimerPace.PeriodicPace | Sir_code/DD/rs_timer.c:106-115 | however a start, begun with nothing queued and no callback before its last statement, and its callbacks interleave with time: k callbacks take at least k delays |
| RsTimerPace.PeriodicPaceAfterStart | Sir_code/DD/rs_timer.c:228-246 | the same for callbacks interleaved after an uninterrupted start that replaces an older timer |
| DelayedWork.WorkConserved | Sir_code/Deferred function/delay.c:35-62 | in every run the queueings the kernel accepted equal finished runs plus cancellations plus work queued or executing, and the run counter counts runs that never exceed the accepted work commands |
| DelayedWorkCalls.RequestsCounted | Sir_code/Deferred function/delay.c:241-262 | in every run the accepted work commands, and the work sections that have taken the mutex, are the requests made to the kernel and the commands on their way there |
| DelayedWorkCalls.WorkAlone | Sir_code/Deferred function/delay.c:241-262 | a work command not kept waiting records its delay, and then the work is queued unless a cancel call is under way |
| DelayedWorkCalls.DelayAlone | Sir_code/Deferred function/delay.c:154-239 | a delay command not kept waiting records what was asked for, what it took and its name |
| DelayedWorkCalls.CancelAlone | Sir_code/Deferred function/delay.c:271-283 | a cancel command not kept waiting takes queued work off the queue and records its name, and leaves the pending flag |
| DelayedWorkCalls.StatusAlone | Sir_code/Deferred function/delay.c:95-108 | a status read not kept waiting returns all fields and changes none |
| DelayedWorkCalls.WorkRuns | Sir_code/Deferred function/delay.c:35-62 | queued work leaves the queue, counts one run, clears the pending flag and records its name |
| DelayedWorkCalls.OnlyAcceptedBegin | Sir_code/Deferred function/delay.c:154-296 | a busy wait of 1 to 1000 microseconds, a sleep of at least 1, any work delay and a cancel are accepted; everything else is refused and changes nothing |
| DelayedWorkCalls.FieldsMean | Sir_code/Deferred function/delay.c:43-283 | after any critical sections every status field is told by the latest section that concerns it: request and duration, work delay, run count, pending, command |
| DelayedWorkCancel.CancelIsFinal | Sir_code/Deferred function/delay.c:271-283 | in every run, whoever queues or cancels meanwhile: when a cancel call returns no work is queued or executing, and until somebody queues work again none is and no run is counted |
| DelayedWorkCancel.CancelReturns | Sir_code/Deferred function/delay.c:43-55 | in every run a waiting cancel call can be brought to return by moves of the work function and of other threads alone: it cannot deadlock with the work function's mutex |
| DelayedWork.PairOfOneCommand | Sir_code/Deferred function/delay.c:165-175 | after any whole critical sections, request and duration are those of the latest delay command |
| DelayedWork.ConsistentSnapshots | Sir_code/Deferred function/delay.c:95-108 | under any field-wise interleaving a status read returns the fields after the whole sections that took the mutex before it, so its request and duration come from one command |
| DelayedWorkDevice.State.MyWrite | Sir_code/Deferred function/delay.c:154-296 | the command handler returns -22 and changes nothing for what the driver refuses, and otherwise performs its critical section's assignments and queues the work, or takes it back after a running work function has finished |
| DelayedWorkDevice.State.CancelWorkSync | Sir_code/Deferred function/delay.c:273-273 | the cancel call leaves nothing queued or running, and the fields as a running work function left them |
| DelayedWorkDevice.State.RecordDelay | Sir_code/Deferred function/delay.c:165-175 | a delay command records request, measured duration and command name together |
| DelayedWorkDevice.State.WorkFn | Sir_code/Deferred function/delay.c:43-55 | the work function counts its run and clears the pending flag under the mutex |
| DelayedWorkDevice.State.MyRead | Sir_code/Deferred function/delay.c:95-108 | the status read copies all fields and changes none |
| WaitQueue.NoLostWakeup | Sir_code/DD/wait_queue.c:44-47 | in every run with any readers, writers and signals, a reader sleeps only while there is no data or some writer is between setting the flag and waking, and it sleeps on the queue |
| WaitQueue.WakeReachesAll | Sir_code/DD/wait_queue.c:98-98 | after a wake-up nobody on the queue sleeps |
| WaitQueue.WaiterIsServed | Sir_code/DD/wait_queue.c:44-63 | with data available, a waiting reader can get to it in at most one writer step and four of its own |
| WaitQueue.ConsumedOnce | Sir_code/DD/wait_queue.c:59-63 | after a read has taken the data, no thread that had not already seen it gets any until another write sets the flag |
| WaitQueueCalls.WriteWakes | Sir_code/DD/wait_queue.c:79-103 | in every state of a run a write by an idle thread makes data available, leaves nobody asleep and moves no other thread on |
| WaitQueueCalls.WriteServes | Sir_code/DD/wait_queue.c:44-98 | one write brings any waiting reader, in at most four moves of its own, to the data |
| WaitQueueCalls.FaultingWrite | Sir_code/DD/wait_queue.c:83-86 | a write whose copy faults leaves flag, queue and readers alone |
| WaitQueueCalls.ReadTakes | Sir_code/DD/wait_queue.c:44-67 | a read waits as soon as it is called, and with data there takes it and clears the flag |
| WaitQueueCalls.ReadSleeps | Sir_code/DD/wait_queue.c:44-47 | without data a reader goes to sleep on the queue and stays there until something wakes it |
| WaitQueueCalls.CopyDecides | Sir_code/DD/wait_queue.c:54-63 | a read at its copy clears the flag exactly when the copy succeeds |
| WaitQueueCalls.SignalEndsWait | Sir_code/DD/wait_queue.c:44-47 | a signal ends a wait within four moves of the reader: it goes on to the data if there is any and otherwise returns, off the queue |
| WaitQueueDevice.Mailbox.WqWrite | Sir_code/DD/wait_queue.c:79-103 | a write stores the message cut to 99 bytes and zero-filled, and sets the flag; one whose copy faults returns the error, leaves the flag, and has replaced the stored message by what it fetched |
| WaitQueueDevice.Mailbox.WqRead | Sir_code/DD/wait_queue.c:44-67 | a read returns the stored string up to its first zero byte, cut to the count, and clears the flag; a faulting one leaves it set, an interrupted one takes nothing |
| WaitQueueDevice.RoundTrip | Sir_code/DD/wait_queue.c:52-88 | a message comes back whole if and only if it has no zero byte, at most 99 bytes, and the reader asks for all of it |
| WaitQueueBytes.StringsEndInBuffer | Sir_code/DD/wait_queue.c:52-88 | for any readers and writers interleaved byte by byte, with any faults: the last byte of the buffer stays zero, no clearing, copy or string scan ever leaves the buffer, and no reader gets more than it asked for or than 99 bytes |
| WaitQueueBytes.WriteAlone | Sir_code/DD/wait_queue.c:79-88 | byte by byte and left alone, a write leaves the buffer the handler leaves |
| WaitQueueBytes.ReadAlone | Sir_code/DD/wait_queue.c:52-57 | byte by byte and left alone, a read delivers the string up to its first zero byte, the count, and what user space takes |
| HrTimer.Overruns | Sir_code/DD/high_rs_timer.c:61-61 | forwarding uses the least whole number of intervals that puts the expiry after now |
| HrTimer.StopCount | Sir_code/DD/high_rs_timer.c:39-67 | for every 32-bit limit and an uncancelled timer, with the counter wrapping and compared as unsigned: the counter is the number of callbacks as a 32-bit pattern, never more callbacks than the limit, stopped exactly when it is reached, never stopped without a limit |
| HrTimer.SilentForGood | Sir_code/DD/high_rs_timer.c:112-117 | a stopped or cancelled timer never runs its callback again |
| HrTimer.CancelIsFinal | Sir_code/DD/high_rs_timer.c:112-117 | after a cancel in whatever state the callback never runs again |
| HrTimer.LimitIsReached | Sir_code/DD/high_rs_timer.c:51-66 | every nonzero limit is reached by letting time pass and firing |
| HrTimer.TicksOnGrid | Sir_code/DD/high_rs_timer.c:61-98 | every expiry is a whole number of intervals after loading, and callbacks never exceed the elapsed intervals |
| HrTimer.NextExpiry | Sir_code/DD/high_rs_timer.c:61-61 | in every uncancelled run, however late the kernel was, an active timer expires at most an interval ahead of now, and after a callback it does so after now |
| HrTimer.PromptRate | Sir_code/DD/high_rs_timer.c:39-67 | fired promptly for k intervals, the callback runs k times, or as often as the limit allows |
| HrTimer.Demo.Init | Sir_code/DD/high_rs_timer.c:69-110 | a zero period is refused; otherwise the timer starts one interval ahead with a zero counter |
| HrTimer.Demo.HrtimerCallback | Sir_code/DD/high_rs_timer.c:39-67 | the callback of a due timer is the machine's expiry event |

## Left out

- Thread, timer and callback interleavings are states and step functions rather than class methods, since a run is an arbitrary schedule of their statements; the class methods next to them run one handler undisturbed, and the callback's log line and CPU binding have no state.
- SpinDemo.Demo.WorkerFunction: states the worker's loop when the other worker does not move; the interleaved loops are the runs of `SpinMachine`.
- SpinDemo.Demo.Bump: states the loop body run uninterrupted with the lock free; its interleavings are steps of `SpinMachine`.
- RsTimerDevice.TimerLab.MyRead: the status read runs undisturbed; interleavings of its field reads with a handler are not modelled.
- MultiCharThreads.Linearizable: the position of a call is an argument and part of its reply; `MultiCharHistory.ConcurrentFiles` keeps positions in open files, each used by one call at a time and opened before the run. Threads that share one open file and race for its position in the VFS are not modelled.
- RsTimer.TickBound: for handlers that do not overlap; `RsTimerPace.ClockBoundExact` decides it for those that do.
- RsTimer.PeriodicRate: for handlers that do not overlap; `RsTimerPace.PeriodicPace` is the rate for those that do.
- RsTimerStop.StopReturns: shows one continuation; `RsTimerStop.StopNotStarved` bounds the wait in all of them.
- DelayedWork.WorkConserved: the work item's delay is not modelled, a queued item may start at any time.
- Teardown of the timer drivers (`my_exit`) and their device registration: kernel plumbing, and the staged registration of `multiple_char.c` is the harder one.
- Delivery of every mailbox message under concurrency, and whole mailbox strings when a read overlaps a write: the driver does not promise them.
- The gate before a mailbox read in `WaitQueueBytes`, where reads begin at any time; `WaitQueue` models the gate.
- The `work_pending` flag as a mirror of the queue: the driver's cancel does not clear it.
- Parsing, formatting, logging, device nodes, the platform and GPIO drivers, and the user programs.
- The near copies of these drivers elsewhere in the repository.
- Weak memory ordering, real durations of delays, and fairness of the scheduler.
