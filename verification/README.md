# Schedulers, semaphores and stacks: a Dafny model of ECE357 ps7 and ps9

The repository is a set of systems-programming exercises. This project models the
three that are small machines in their own right, and proves what they are for.

* **ps9, the user-level scheduler.** `Table.dfy` holds the process table of
  `sched.c` as a value, and each operation on it as a function. `Scheduler.dfy`
  holds the same operations in the form of the source: task records on the heap,
  an array of 1023 pointers, scan loops; every method is proved equal to its
  function. `Runs.dfy` puts the operations together into runs. The bodies of
  `sched_fork`, `sched_exit` and `sched_wait` run with signals blocked, between the
  points that unblock them, and each such part is one step. `sched_nice` blocks
  nothing, but makes a single store, to a field of its own caller: a tick comes
  before or after it. Timer ticks fall at any point between the steps, and each task
  has a saved place where it goes on. `Laws.dfy` says what any action does, field by
  field, and `Delivery.dfy` that exit codes arrive. `Ledger.dfy`, `NoStall.dfy`,
  `Stalls.dfy` and `Fairness.dfy` prove conservation laws, absence of stalls and its
  exact limits, and the exact waiting time over all runs.
* **ps9, stack relocation for fork.** `Frames.dfy` has `adjstack` as the in-place
  rewrite of a frame-pointer chain in a memory of 64-bit words that holds both
  stacks, with unsigned wrap-around, and the copy and register fix-up of
  `sched_fork` around it.
* **ps7, the spinlock, the semaphore and the two test programs.** `Semaphore.dfy`
  models any number of processes by small steps: `tas` is one exchange, the load and
  the store of `count` are separate, and so is each slot of the wake scan.
  `SemaphoreProofs.dfy` proves mutual exclusion, conservation and the wake-up
  properties, `Calls.dfy` what calls and signals come to over whole runs,
  `Progress.dfy` which wake-ups can be lost and which processes can still get
  through. `Workers.dfy` is the counting loop of `tasTest.c`, `FifoTests.dfy`
  the order checker of `fifoTest.c`.

Where the code and its documentation differ, the code is followed, and the exact
condition is proved:

* `sched.h` says that `sched_exit` does not return and that another task will run.
  `Stalls.ExitReturnsIff`: it returns if and only if no other task is READY and none
  sleeps under the pid of the caller's parent; `Stalls.ExitReturnsOnPath` says the same
  of every continuation, with ticks before its `sched_switch`. `Stalls.StallIff` says which call in
  which state leaves nothing to run, and `Stalls.StalledForEver` that this is final.
  `NoStall` proves that it never happens under a discipline that `ps9/main.c` keeps:
  pid 1 never exits and waits only when it has another child, and every other task
  exits only after reaping its children.
* `sched.h` says that `sched_wait` returns -1 without children. Pid 1 is its own
  parent. `Stalls.WaitFailsIff`: the result is -1 if and only if the caller has no
  other child and is not pid 1. A childless pid 1 that waits is asleep inside
  `sched_wait` for ever, whatever other tasks do (`Stalls.ChildlessInitWaitsForEver`).
* The priorities of `sched_switch` do not keep every READY task from starving.
  `Fairness.DispatchedIff`: under ticks alone a READY task is served if and only if
  its dynamic priority is at least 2 or no task in a lower slot wants the CPU;
  `Fairness.StarvationReachable` reaches a state where one is never served.
* The upper limit test of `adjstack` is inclusive, so under a root frame it reads the
  word just beyond the stack. `Frames.OverrunIff`: it overwrites that word if and only
  if the word, once shifted, passes the limit test of the child's stack;
  `Frames.OverrunHappens` gives such stacks. If the child's stack lies right below the
  parent's, that word is the parent's first, and `Frames.RootedParentKeptIff` says
  exactly when a fork changes the parent's stack.
* The mask in `sem_wait` does not block SIGUSR1 before `sigsuspend`.
  `Progress.CanLoseIff`: a wake-up can be lost if and only if signals are not
  held until `sigsuspend` and there are at least two processes. It then stays lost
  until somebody calls `sem_inc` again (`Progress.LostUntilInc`). Under either mask
  somebody can, and a process in `sem_wait` can get through, unless the semaphore is
  used up and every process wants it (`Progress.FinishesIff`). Pending and blocked
  signals are those of section 2.4, Signal Concepts, of POSIX.1-2017 System
  Interfaces.

## Model

| member | source | states |
|---|---|---|
| Table.NextPid | ps9/sched.c:18-26 | the least empty slot at or after a start as a pid, and -1 exactly when every slot from there on is taken |
| Table.SleepingTask | ps9/sched.c:160-162 | the first sleeping task with a given pid, and -1 exactly when there is none |
| Table.ZombieChild | ps9/sched.c:198-205 | the first zombie child of a pid, and -1 exactly when it has none |
| Table.Dynamic | ps9/sched.c:279-282 | with a clamped nice value the divisor is positive and the priority is in 1..40 |
| Table.Pick | ps9/sched.c:293-303 | the scan finds the first READY task of greatest positive priority |
| Table.SelectionIsBest | ps9/sched.c:275-307 | after the recomputation nothing is found exactly when nothing is READY, and otherwise the lowest slot among the READY tasks of maximal priority |
| Table.SwitchChooses | ps9/sched.c:275-327 | in every state, if some task is READY or the current one can run, the CPU goes to such a task that none beats by dynamic priority, and none in a lower slot equals; otherwise it stays |
| Table.SwitchKeeps | ps9/sched.c:271-328 | a switch changes no task but for its priority and its READY or RUNNING state, makes only the new current task RUNNING, and leaves no READY task off the queue |
| Scheduler.Machine.constructor | ps9/sched.c:28-79 | the initial table: pid 1, its own parent, RUNNING, alone |
| Scheduler.Machine.NextFree | ps9/sched.c:18-26 | the loop over the pointer array computes NextPid |
| Scheduler.Machine.SchedFork | ps9/sched.c:90-132 | the table and the result are those of Fork: one READY child of the caller in the least free slot with the caller's ticks, or -1 and no change |
| Scheduler.Machine.FindSleeping | ps9/sched.c:159-168 | the scan for a sleeping parent computes SleepingTask |
| Scheduler.Machine.SchedExit | ps9/sched.c:151-168 | the table is that of Exit: the caller a zombie with its code, a sleeping parent RUNNING and current |
| Scheduler.Machine.AnyChild | ps9/sched.c:180-192 | the first loop of sched_wait finds a child exactly when the caller has one |
| Scheduler.Machine.WaitPass | ps9/sched.c:196-216 | one pass of the wait loop frees the first zombie child and yields its code, or puts the caller to sleep |
| Scheduler.Machine.SchedNice | ps9/sched.c:232-240 | the current task's nice value is the argument clamped to -20..19; nothing else changes |
| Scheduler.Machine.RefreshAll | ps9/sched.c:276-285 | every task's priority is recomputed in place |
| Scheduler.Machine.MakeQueue | ps9/sched.c:271-290 | the table on which the choice is made: fresh priorities, and the current task READY unless asleep or dead |
| Scheduler.Machine.Choose | ps9/sched.c:292-303 | the selection loop computes Pick |
| Scheduler.Machine.SchedSwitch | ps9/sched.c:271-328 | the three parts together are Switch |
| Scheduler.Machine.SchedTick | ps9/sched.c:334-338 | the current task and the clock are charged one tick each, and then the CPU is switched |
| Runs.ReachableInv | ps9/sched.c:90-338 | the table invariant and the wait/exit handshake are kept by every action, wherever it may come, and so hold in every reachable state |
| Runs.NeverStuck | ps9/sched.c:170-174 | a task with the CPU can always go on: inside sched_wait and sched_exit, and with any call from its own code unless it is a zombie |
| Runs.TableInvariant | ps9/sched.c:76-79 | in every reachable state slots carry their pids and clamped nice values, only the current task may be RUNNING, proc_count counts the tasks that are not zombies, and exactly the zombies hold a code |
| Runs.WaitExitHandshake | ps9/sched.c:194-222 | in every reachable state a task inside the wait loop sleeps exactly when it has no zombie child, and nobody sleeps elsewhere: no exit missed, no spurious wake-up, also when pids are reused |
| Runs.ExitReachesSleeper | ps9/sched.c:151-210 | an exit hands the CPU to a parent that sleeps before its next scan, and that scan reaps exactly that child with exactly that code and restores the rest of the table |
| Runs.ExitWakesSleeper | ps9/sched.c:159-168 | wherever in sched_wait the parent sleeps, also before its call of sched_switch, the exit makes it RUNNING and current, with a zombie child |
| Runs.AwakeUntilDelivered | ps9/sched.c:194-224 | a task woken inside sched_wait stays awake, whatever happens, until its own next scan, and that scan delivers a child's code to it |
| Delivery.AwakeStep | ps9/sched.c:196-222 | a task awake inside sched_wait goes from sched_switch on to its next scan, from there out with a child's code, and is not moved by anything else |
| Delivery.WokenReceives | ps9/sched.c:194-224 | on every path from a reachable state, a task awake inside sched_wait has received a child's code by the time it has gone on twice |
| Delivery.CodeArrives | ps9/sched.c:151-224 | it happens: after fork, wait and switch pid 1 sleeps before its next scan, and the exit of pid 2 then puts its code into the hands of pid 1 and empties its slot |
| Laws.StartLaw | ps9/sched.c:57-79 | the state in which all runs begin |
| Laws.PresenceLaw | ps9/sched.c:102-209 | after any action: a slot is filled exactly by a fork that finds it the first empty one, and emptied exactly by a pass of sched_wait that finds in it the caller's first zombie child |
| Laws.BirthLaw | ps9/sched.c:108-112 | a new record is that of a READY child of the caller, with nice value 0, priority 20 and the caller's ticks |
| Laws.RecordLaw | ps9/sched.c:151-240 | pid and ppid never change; the nice value only by the owner's sched_nice, to its argument held to -20..19; ticks only by a tick of the running task, by 1; the code only by the owner's exit |
| Laws.PriorityLaw | ps9/sched.c:276-285 | a switch makes every priority that of the nice value and ticks; nothing else changes one |
| Laws.StatusLaw | ps9/sched.c:151-328 | after any action, who sleeps, dies, is woken, is put back on the queue or made RUNNING; and nobody else's status changes |
| Laws.CurrentLaw | ps9/sched.c:159-327 | after any action, who has the CPU: the best of those that want it after a switch, also in sched_wait and sched_exit; a parent asleep for the caller after its exit; otherwise still the caller |
| Laws.PlaceLaw | ps9/sched.c:170-222 | after any action, where every task goes on |
| Laws.CounterLaw | ps9/sched.c:131-336 | tick_count moves by ticks, proc_count by successful forks and by exits only |
| Ledger.TicksConserved | ps9/sched.c:334-338 | tick_count is the number of ticks, and equals the ticks of all tasks ever created less what they inherited; no entry has more ticks than there were |
| Ledger.ExitCodesConserved | ps9/sched.c:151-157 | each parcel of child, parent and code given to sched_exit was delivered once by sched_wait to the task whose pid is the child's ppid, or is held by a zombie |
| Ledger.PidLifetime | ps9/sched.c:199-210 | between two births with the same pid lies a reaping of that pid |
| Ledger.ForkPid | ps9/sched.c:102-107 | over every run, fork gets the least pid not born or already reaped, and -1 exactly when all 1023 are in use, zombies included |
| NoStall.YoungestRuns | ps9/sched.c:183-222 | from any live task the walk to children of sleepers ends at a READY or RUNNING task |
| NoStall.NextFamily | ps9/sched.c:151-222 | orderly actions keep every parent alive and older than its children, and give every waiter another child |
| NoStall.NeverStalls | ps9/sched.c:292-307 | in every state reachable by orderly actions some task is READY or RUNNING |
| NoStall.ExitNeverReturns | ps9/sched.c:170-174 | in orderly runs sched_switch leaves every sleeper and zombie, so a zombie never gets back to its own code |
| Stalls.ExitReturnsIff | ps9/sched.c:151-174 | in any reachable state, sched_exit returns to its caller if and only if no other task is READY and no other task sleeps under the pid of the caller's parent |
| Stalls.ExitReturnsOnPath | ps9/sched.c:170-174 | on every continuation, until the zombie is reaped: under that condition it keeps the CPU and is back in its own code as soon as its sched_switch has run; otherwise it loses the CPU at the next step and is never seen outside sched_exit |
| Stalls.LeavingStays | ps9/sched.c:171-173 | if another task is READY, whichever comes first, a tick or its own sched_switch, takes the CPU from a zombie inside sched_exit, and nothing but a reaping ends that |
| Stalls.SwitchLeavesIff | ps9/sched.c:292-307 | sched_switch leaves a sleeper or a zombie if and only if another task is READY |
| Stalls.ExitStallsIff | ps9/sched.c:151-168 | an exit leaves nothing READY or RUNNING if and only if no other task is READY and none sleeps under the pid of the caller's parent |
| Stalls.WaitStallsIff | ps9/sched.c:180-220 | a wait leaves nothing READY or RUNNING if and only if no other task is READY and the caller has children, none a zombie |
| Stalls.OthersNeverStall | ps9/sched.c:90-338 | ticks, renicing, forks and the rest of a call neither cause a stall nor end one |
| Stalls.StallIff | ps9/sched.c:151-222 | from a reachable state with a READY or RUNNING task, exactly those exits and those waits cause a stall |
| Stalls.StalledForEver | ps9/sched.c:304-307 | once nothing is READY or RUNNING, nothing is on any continuation |
| Stalls.WaitFailsIff | ps9/sched.c:180-192 | in any reachable state, sched_wait finds no child if and only if the caller has no other child and is not pid 1 |
| Stalls.ChildlessInitWaitsForEver | ps9/sched.c:66 | a pid 1 that waits with no other child goes to sleep, and is asleep inside sched_wait on every continuation |
| Stalls.LonelyWaitStalls | ps9/sched.c:216-220 | it happens: the wait of a pid 1 alone in the table stalls the scheduler |
| Stalls.LastExitReturns | ps9/sched.c:170-174 | it happens: the exit of a pid 1 alone in the table comes back to it as a zombie |
| Fairness.DynamicAtLeast | ps9/sched.c:279-282 | for q of at least 2, a priority of at least q is the same as fewer than k(k-q+1) ticks, k being 20 minus nice |
| Fairness.TickFrame | ps9/sched.c:334-338 | a tick charges one tick to the current task and none to others, and does not change who wants the CPU |
| Fairness.TickPicks | ps9/sched.c:275-303 | after a tick the CPU is with a task that no other beats, by priority first and then by slot |
| Fairness.TickProgress | ps9/sched.c:271-338 | a tick takes one from the debt of the others exactly if the running task has credit; it dispatches the waiting task exactly if the debt is then paid, and otherwise gives the CPU to a task with credit |
| Fairness.DispatchTime | ps9/sched.c:271-338 | a READY task of priority q at least 2, or in the lowest slot, is first dispatched at a tick with a formula: the sum of max(0, k(k-r+1) - ticks) over the others that want the CPU, r being q in lower slots and q+1 in higher ones, plus 1 if the running task has none left |
| Fairness.DispatchedIff | ps9/sched.c:271-338 | under ticks alone a READY task is ever dispatched if and only if its priority is at least 2 or nobody in a lower slot wants the CPU |
| Fairness.StarvationReachable | ps9/sched.c:275-307 | a state can be reached with two tasks in the table, both with nice value 19, of which the child is READY and no number of ticks serves it |
| Fairness.SpentForever | ps9/sched.c:277-303 | once everyone who wants the CPU has k(k-1) ticks, all priorities stay 1 and every tick selects the lowest pid |
| Fairness.ReadyTaskIsDispatched | ps9/sched.c:334-338 | the same number of ticks, not more and not fewer, in every reachable state and for ticks as actions of a run |
| Frames.Shift | ps9/sched.c:127 | adding the wrapped distance of two stacks moves the addresses of one to the same places of the other, and no other address into it |
| Frames.AdjStack | ps9/adjstack.c:16-50 | on any contents memory is what the walk leaves, at its end or at the first address it meets that is inside a word, and the result says which |
| Frames.TraceInWindow | ps9/adjstack.c:35-49 | the walk changes nothing in memory but the stack and the word beyond it, and there it is the walk in that part alone |
| Frames.TraceExact | ps9/adjstack.c:35-49 | whatever the loop does turn by turn, when it stops memory and result are those of the walk |
| Frames.LoopStops | ps9/adjstack.c:35-49 | on any contents some number of turns brings it to a stop |
| Frames.FuelDrops | ps9/adjstack.c:35-49 | each turn takes one from the number of turns left, because a shifted word can pass the limit test at most once more |
| Frames.RisingWalk | ps9/adjstack.c:35-49 | on a chain that only goes up the walk shifts exactly the saved frame pointers on it |
| Frames.RisingIff | ps9/adjstack.c:39 | for frames linked upwards the walk only goes up if and only if, under a rooted chain, the shifted word at the inclusive limit fails the limit test |
| Frames.WritesIffChanged | ps9/adjstack.c:35-49 | the walk makes a store to a word if and only if it leaves another value there: no word gets its old value back |
| Frames.OverrunIff | ps9/adjstack.c:39-45 | under a rooted chain of frames linked upwards there is a store to the word beyond the child's stack if and only if that word, once shifted, passes the limit test |
| Frames.OverrunHappens | ps9/adjstack.c:39-45 | rooted, well linked stacks on which there is one, with any address of the parent's stack as that word, on a word boundary or not |
| Frames.ChainMoved | ps9/adjstack.c:34-49 | the child's frame chain is the parent's, frame by frame, if and only if the word ending the parent's chain is not the address of a later word of the child's stack |
| Frames.RootedChain | ps9/sched.c:81-84 | under the root frame of sched_init that condition always holds |
| Frames.SoundIsTame | ps9/adjstack.c:35-49 | if the frames are linked upwards and the limit word does not shift into the stack, the walk goes from word to word to its end |
| Frames.SoundFork | ps9/sched.c:122-143 | then exactly the saved frame pointers are shifted; and under a root frame the child's frames are the parent's, are linked upwards and rooted again |
| Frames.Generations | ps9/sched.c:122-143 | so over any number of generations of such forks the frame chain is the first parent's |
| Frames.ForkStack | ps9/sched.c:122-143 | after copy, adjustment and fix-up: SP and BP at the same places of the child's stack, memory changed in the child's stack and the word beyond it only, to what the walk makes of the copy; and if the fork is sound (frames linked upwards, limit word not shifting into the stack) the loop ends, the stack is relocated as in SoundFork, and all else is as it was |
| Frames.ParentKeptIff | ps9/sched.c:122-143 | for any contents, the parent's stack is as it was if and only if it is not the case that the child's lies right below it and the walk stores to the word beyond that |
| Frames.RootedParentKeptIff | ps9/adjstack.c:39-45 | for rooted frames linked upwards, if and only if it is not the case that the child's stack lies right below and the parent's first word holds an address of the parent's stack |
| Frames.ParentHit | ps9/adjstack.c:39-45 | it happens: a stack of words that all hold its top, forked into the one below, is changed |
| Semaphore.Sem.SemInit | ps7/sem.c:10-19 | lock free, the given count, no flag set |
| Semaphore.Sem.Tas | ps7/tas64.S:4-13 | the lock is set and its old value returned |
| Semaphore.Sem.Advance | ps7/sem.c:21-79 | each access of the three operations, made on the struct in place, is the step of the protocol |
| SemaphoreProofs.MutexNext | ps7/sem.c:40-41 | every step keeps: at most one process between tas and release, and the lock word says whether there is one |
| SemaphoreProofs.SemaphoreConserved | ps7/sem.c:10-79 | in every reachable state one holder at most; count is never negative, and is the initial count plus increments less decrements whenever the lock is free |
| SemaphoreProofs.FailedWaiterSignalled | ps7/sem.c:64-79 | a process that found count used up, and after whose test a V was stored, was signalled since or is still to be scanned |
| SemaphoreProofs.NoLostWakeup | ps7/sem.c:58-60 | if signals keep until sigsuspend, a process in it has one pending whenever the semaphore is up and its slot is not still to be scanned |
| SemaphoreProofs.LostWakeupIff | ps7/sem.c:45-59 | state by state, with either mask: such a process has none pending exactly when its last signal was handled before sigsuspend |
| Progress.WakeupCanBeLost | ps7/sem.c:46-59 | from any initial count and for any number of processes from 2 on, the mask as written has a run that loses a wake-up |
| Progress.CanLoseIff | ps7/sem.c:43-60 | a configuration can reach a state with count positive, the lock free, nobody in sem_inc and a process in sigsuspend with nothing pending, if and only if signals are not held and there are at least two processes |
| Progress.HolderFinishes | ps7/sem.c:21-79 | from every reachable state whoever holds the lock can free it by its own steps alone, with what it still owes to count, and in sem_inc with a signal to every waiting process it has still to scan |
| Progress.LostUntilInc | ps7/sem.c:58-77 | a lost wake-up stays lost: on every continuation without a call of sem_inc the process is still in sigsuspend |
| Progress.FinishesWithoutIncIff | ps7/sem.c:36-62 | with the semaphore up, the lock free and nobody in sem_inc, a process in sem_wait can get through without another sem_inc if and only if it is not in or just before sigsuspend, or has a signal pending |
| Progress.HeldWaiterFinishes | ps7/sem.c:36-62 | with signals held, semaphore up and lock free, a process in sigsuspend can wake, and any in sem_wait can get through without a sem_inc |
| Progress.FinishesIff | ps7/sem.c:36-79 | under either mask, from any reachable state a process in sem_wait can get through, others helping, if and only if it is not the case that count is zero and every process wants the semaphore |
| Progress.SomeoneAwake | ps7/sem.c:51-59 | while count is positive and the lock free, some process is not on its way to sigsuspend, under either mask |
| Progress.DeadReachable | ps7/sem.c:36-62 | every configuration with a process can reach that deadlock, whatever its initial count |
| Calls.SlotsExact | ps7/sem.c:37-52 | in every reachable state a slot holds its process's pid from the store at the start of sem_wait until the test lets it through, and 0 otherwise |
| Calls.SignalsExact | ps7/sem.c:72-76 | a signal becomes pending exactly when the scan of a sem_inc passes the slot of a waiting process, for that process, and stops being so when handled |
| Calls.LockedOut | ps7/sem.c:22-66 | in all three operations a process that finds the lock taken tries again, and nothing changes |
| Calls.BlockedIff | ps7/sem.c:21-79 | a process cannot move exactly if it is in sigsuspend with no signal pending; a pending signal is handled wherever the process is, or, if held, in sigsuspend only |
| Calls.CallsAccounted | ps7/sem.c:21-79 | over every run, each call of each operation is still inside it or has come to its last step, the release of the lock, once |
| Calls.CountOfCalls | ps7/sem.c:21-79 | over every run, with the lock free, count is the initial count plus the calls of sem_inc less the calls of sem_wait that are over, less the sem_try calls that took one |
| Workers.Tas | ps7/tas64.S:4-13 | the lock word is set and its old value returned |
| Workers.RunWorkers | ps7/tasTest.c:52-85 | any interleaving of the workers' accesses, made on the shared words in place, computes the run of the protocol; and if every worker is done, map[0] is n times k and the lock is free |
| Workers.LockExact | ps7/tasTest.c:66-69 | in every reachable state the lock word is 1 exactly when a worker is between its tas and its release, and only one can be |
| Workers.ParallelCounter | ps7/tasTest.c:65-70 | every run that finishes ends with n times k in the counter and the lock free |
| Workers.StepWork | ps7/tasTest.c:65-70 | a failed tas changes nothing, and every other step takes exactly one unit off the work left |
| Workers.CanFinish | ps7/tasTest.c:65-70 | every reachable state has a continuation that finishes: no deadlock |
| FifoTests.WriteAll | ps7/fifoTest.c:166-171 | a writer sends its numbers in order, with its id in the bits above 24 |
| FifoTests.DecodeEncode | ps7/fifoTest.c:140-141 | the reader recovers writer and number |
| FifoTests.CheckPlain | ps7/fifoTest.c:79-84 | test1 reports success exactly on 0, 1, 2, ... |
| FifoTests.CheckOrder | ps7/fifoTest.c:131-160 | the reader's loop accepts exactly the streams in which each number is the count of its writer's earlier words |
| FifoTests.CheckerExact | ps7/fifoTest.c:138-160 | n * L words with numbers below L are accepted if and only if they interleave the sequences 0..L-1 of the n writers |
| FifoTests.ReadChecks | ps7/fifoTest.c:138-154 | whatever the queue holds, the reader takes its first word, and fails exactly if that is out of order |
| FifoTests.ReaderStops | ps7/fifoTest.c:138-155 | with words in the queue, the reader takes no more exactly if it has failed or has read n * l of them |
| FifoTests.FullIff | ps7/fifo.h:3-24 | the queue can hold k words in some run if and only if k is at most n * l and at most 4096 |
| FifoTests.Test2NeverFails | ps7/fifoTest.c:128-171 | with a FIFO that keeps its contract no interleaving of writers and reader fails the check |
| FifoTests.Test2NeverBlocks | ps7/fifo.h:23-39 | until every word is read, the reader or some writer can go on |
| FifoTests.Test2CanComplete | ps7/fifoTest.c:138-171 | every run has a continuation in which all n * L words are read |
| FifoTests.Test2Succeeds | ps7/fifoTest.c:158-160 | every complete run ends in success, with an interleaving of the writers' sequences |

## Left out

- `malloc`, `mmap`, `setitimer`, signal installation and printing: they succeed or do
  not matter; the process table starts all null, although ps9/sched.c:32 does not
  clear it.
- Register switching (ps9/savectx64.S): each task has a saved point to go on from, and
  only SP and BP appear, in `Frames`.
- The signal mask of the scheduler: an API body is one step. Error returns of
  `sched_fork` and `sched_wait`, and a `sched_switch` that returns early, leave signals
  blocked; the model allows ticks there all the same, which only adds runs.
- Overflow of tick counters and the narrowing of a priority to int: mathematical
  integers are used.
- Calls into the scheduler by a task that is already a zombie.
- The read of `exit_code` after `free` in `sched_wait`: the code is read before the
  record is removed.
- Frames.AdjStack: does not model what the loop does after it has met an address inside
  a word, which needs memory in bytes; it stops there and says so.
- Frames.ForkStack: the same; `Frames.SoundIsTame` says when no such address is met.
  Stacks are taken to lie at word addresses, as `mmap` returns pages.
- A memory order weaker than sequential consistency: ps7 and ps9 are modelled on shared
  memory with atomic single accesses.
- The return value of `sem_try`, which is read outside the lock and is 1 for every count
  that is not negative: only its effect on `count` is modelled.
- The window before `sem_wait` first installs its handler, in which SIGUSR1 is fatal:
  the handler is taken to be installed.
- Overflow of `map[0]` beyond an int: n * k is taken to fit, as 64 * 100000 does.
- ps7/fifo.c is empty in this repository; the FIFO appears by its contract only.
- ps1, ps2, ps3, ps4, ps5 and ps8: exercises in system calls, out of scope here.
