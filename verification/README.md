# A study collection, verified

Dafny models of the self-contained parts of a C++ study collection that hold hard properties, with
proofs of those properties. One module or group of modules per source file:

| modules | source | subject |
|---|---|---|
| CatMouseGame, CatMouseSolver | 913.cpp | retrograde solution of the cat and mouse game against strategies and infinite plays |
| ThreadPool, ThreadPoolSafety, ThreadPoolRuns, ThreadPoolQueue, ThreadPoolOrder | 6_thread_pool.cpp | a thread pool with a bounded queue and shutdown, as a step system |
| BoundedBuffer, BoundedBufferProof, BoundedBufferRuns, BoundedBufferOrder | 5_producer_consumer.cpp | a bounded buffer with an audit counter, as a step system |
| AppleSchedule, AppleEating, AppleAgreement | 1705.cpp | earliest-rotting-first against every schedule, by heap and day by day |
| CakeCutting | 3218.cpp | greedy cake cutting against every order of cuts |
| ExamRoom | 855.cpp | a lazily cleaned queue of gaps against the best seat |
| JumpGame | 1345.cpp | breadth-first search that clears value groups against shortest paths |
| TimerSpec, TimerList, TimeHeap, TimerScripts, TimeWheel | chapter11_timer | three timer containers against maps of deadlines or countdowns |
| DisjointSets, StreetGrid | 1391.cpp | union-find against reachability over open streets |
| DecodeString | decode_string.cpp | two stacks and a recursion against the expansion of a text |
| Queens | 51.cpp | backtracking against all placements |
| RainWater | 42.cpp | a descending stack against running maxima |
| NextPermutation | 31.cpp | in place, against the lexicographic order of all permutations |
| BallBags | 1760.cpp | binary search against all sequences of splits |
| CoveringSubstrings | 3297.cpp | a window summary against the full scan |
| RandomList | LCR154.cpp | copying a list with random links |

Wrappers, Sums, Division, Listings, Sorting and PriorityQueue hold what several of them share; the last two state
the contracts of `std::sort` and `std::priority_queue::top`.

How to read it:

- Code that changes state step by step is modelled by methods and classes with the fields of the source;
  each method is tied to a specification on values, and lemmas prove what is promised about that.
- The two monitors are step systems: every thread has a program point between any two of its accesses to
  shared state; a step may be any enabled one, `notify_one` wakes any sleeper or is lost when there is
  none, and a wakeup may be spurious. Results about runs hold for every interleaving.
- `std::set`, `map`, `queue`, `stack` and `vector` values are Dafny sets, maps and sequences; a stack has
  its top at the end. A heap of pairs is a multiset whose top is any element the contract allows.
- Callbacks of the timers are the sequence returned by `Tick`; the clock reading is a parameter.
- Ghost parameters name what a caller has in mind, such as the list behind a head pointer or the text a
  string spells; the results hold for every choice of them.

Where the code differs from its comments or from a natural expectation, the model follows the code:

- A pool's queue may hold one task more than `max_queue_size`, because the wait tests `<=`
  (cpp/thread/6_thread_pool.cpp:77). It never holds more than that (`ThreadPoolRuns.History`), and some run
  gets there if and only if there are more calls than the bound (`ThreadPoolQueue.OvershootsIff`).
- The comment at time_wheel_timer.h:51-53 says that a timer fires after `ticks` ticks. The current slot is
  run before the wheel moves, so it fires in call number `ticks` + 1 (`TimeWheel.FiresOnce`).
- `eatenApples` pushes the lot of the day after removing what has rotted, so it eats an apple that is
  rotten on arrival; `eatenApples_my` does not. Each is proved to be a maximum for its own reading. They
  differ when one rotten apple is all there is (`AppleAgreement.RottenOnArrival`), and they agree if and
  only if each day on which apples arrive rotten lies in a stretch of days that lots arriving and rotting
  within it can fill (`AppleAgreement.BothAgree`).
- The recursion of 3218.cpp starts its minimum at 65535 for every piece. For prices that are not negative
  it is right exactly when the least cost does not exceed that (`CakeCutting.MinimumCostMy`,
  `CakeCutting.SentinelIsTooLow`); with negative prices it can also fall below a smaller least cost
  (`CakeCutting.NegativePricesGainTooMuch`). The greedy method has no such limit.
- A seat in a full exam room is 0 and changes nobody's seat (`ExamRoom.ExamRoom.Seat`).
- In the cat and mouse game a player without a legal move never appears in the counters as a loss; the
  plays of the model let such a player stand still, which makes the three labels exact without assuming
  that a move always exists.
- Emptying the sorted timer list by `tick` leaves the old tail pointer; the list invariant allows that.

Assumptions taken from the sources: the game is played on a simple undirected graph of at least three nodes;
grids are rectangular and not empty; rain water by running maxima needs at least one bar; bags hold at
least one ball, there is at least one bag and the number of operations is not negative
(1760.cpp:104-105); strings of 3297.cpp are lower-case and t is not empty; the exam room has at least one
seat; a time heap that is added to or ticked has a capacity of at least one, since its code then uses cell 0
and doubles the capacity to grow; a timer is added to one container at a time, and only a timer that is in a
container is deleted from it. All integers are mathematical integers.

To check the whole project: `dafny verify dfyconfig.toml`.

## Model

| member | source | states |
|---|---|---|
| `CatMouseSolver.Solution.CatMouseGame` | algorithm/leetcode/dynamic_programming/913.cpp:23-79 | for every position with the cat outside the hole, the final table says MOUSE_WIN or CAT_WIN exactly when that player can force a win over all infinite plays, and DRAW exactly when both can avoid losing for ever; the value returned is that of the start |
| `CatMouseSolver.FinishedRunIsExact` | algorithm/leetcode/dynamic_programming/913.cpp:55-78 | when the queue is empty, every label is the value of its position in the game |
| `CatMouseSolver.SettledIsExact` | algorithm/leetcode/dynamic_programming/913.cpp:62-75 | a table in which every win has an earlier reason and every draw has a way to stay drawn agrees with strategies and plays, both ways |
| `CatMouseSolver.LabelledWinIsForced` | algorithm/leetcode/dynamic_programming/913.cpp:62-74 | following the order of labelling is a strategy that wins every play from a position labelled as won |
| `CatMouseSolver.NotLabelledLostIsSafe` | algorithm/leetcode/dynamic_programming/913.cpp:62-74 | from a position not labelled as lost the player has a strategy that never loses, for as long as the play goes on |
| `CatMouseGame.WinningExcludesSafe` | algorithm/leetcode/dynamic_programming/913.cpp:3-6 | one player can force a win only if the other cannot avoid losing, so the three labels exclude each other |
| `CatMouseGame.JointIsPlay` | algorithm/leetcode/dynamic_programming/913.cpp:3-6 | two strategies always meet in a play that both admit |
| `CatMouseSolver.RoundKeepsSound` | algorithm/leetcode/dynamic_programming/913.cpp:55-77 | one round of the main loop keeps: the counters count the successors not yet processed, the log holds each position once, labels have reasons |
| `CatMouseSolver.VisitKeepsSound` | algorithm/leetcode/dynamic_programming/913.cpp:61-76 | looking at one predecessor keeps the same, whichever of the branches is taken |
| `CatMouseSolver.VisitAllKeepsSound` | algorithm/leetcode/dynamic_programming/913.cpp:59-76 | when every predecessor has been looked at once, the processed position is taken into account everywhere |
| `CatMouseSolver.Decrement` | algorithm/leetcode/dynamic_programming/913.cpp:69 | the counter reaches zero exactly when the last successor that was open turns out to be a loss |
| `CatMouseSolver.QueueIsBounded` | algorithm/leetcode/dynamic_programming/913.cpp:55-57 | each position is queued at most once, so the loop ends |
| `CatMouseSolver.QueueEmptyIsSettled` | algorithm/leetcode/dynamic_programming/913.cpp:55 | with nothing left in the queue a drawn position has no winning move and, if it has a move, a drawn one |
| `CatMouseSolver.MoveCountIsSuccCount` | algorithm/leetcode/dynamic_programming/913.cpp:32-42 | the initial counters are the numbers of legal moves, the edge into the hole not counted for the cat |
| `CatMouseSolver.Solution.GetPrevStates` | algorithm/leetcode/dynamic_programming/913.cpp:81-96 | exactly the positions with a legal move to the given one, each once |
| `CatMouseSolver.Solution.Init` | algorithm/leetcode/dynamic_programming/913.cpp:26-54 | the tables before the first round satisfy the invariant of the main loop |
| `CatMouseSolver.Solution.Process` | algorithm/leetcode/dynamic_programming/913.cpp:55-77 | the tables and the queue after a round are those of looking at all predecessors |
| `CatMouseSolver.Solution.Visit` | algorithm/leetcode/dynamic_programming/913.cpp:61-76 | the tables and the queue after one predecessor |
| `ThreadPoolRuns.CreateIsInv` | cpp/thread/6_thread_pool.cpp:20-52 | a bound of zero is refused, and nothing else; a new pool has the given number of workers, or one if fewer are asked for, and satisfies the invariant |
| `ThreadPoolSafety.StepKeepsInv` | cpp/thread/6_thread_pool.cpp:30-84 | every step of every thread, spurious wakeups included, keeps the invariant |
| `ThreadPoolRuns.RunKeepsInv` | cpp/thread/6_thread_pool.cpp:30-84 | every reachable state satisfies it |
| `ThreadPoolRuns.NoLostWakeup` | cpp/thread/6_thread_pool.cpp:33-83 | with the mutex free: a sleeping worker means at most as many tasks as woken workers and owed notifications; a blocked client, at most as many free places as roused clients unless stopping; after stop, sleepers have a notify_all coming |
| `ThreadPoolRuns.History` | cpp/thread/6_thread_pool.cpp:32-84 | along a run tasks are taken in the order accepted, each once; the queue never exceeds the bound by more than one; nothing is accepted after stop; after a worker has returned the queue stays empty |
| `ThreadPoolQueue.OvershootsIff` | cpp/thread/6_thread_pool.cpp:71-84 | for any number of workers, any positive bound and any calls: some run puts one task more than the bound into the queue if and only if there are more calls than the bound, and otherwise every run keeps within it |
| `ThreadPoolQueue.HoldsExactly` | cpp/thread/6_thread_pool.cpp:71-84 | the numbers of queued tasks that runs can reach are exactly those up to the number of calls and the bound plus one |
| `ThreadPoolQueue.FillsUp` | cpp/thread/6_thread_pool.cpp:71-84 | clients can fill the queue beyond the bound before any worker gets the mutex |
| `ThreadPoolQueue.RunAddsNothing` | cpp/thread/6_thread_pool.cpp:71-84 | queued tasks and calls still to be made together never grow along a run |
| `ThreadPoolQueue.RunsAtOnce` | cpp/thread/6_thread_pool.cpp:32-50 | for any number of workers, any positive bound and any calls: some run comes to a state in which exactly k tasks are running without the mutex if and only if there are that many workers and that many calls |
| `ThreadPoolQueue.BusyExactly` | cpp/thread/6_thread_pool.cpp:32-84 | while k tasks are running and the mutex is free, exactly so many others can be queued as the bound plus one and the remaining calls allow: clients go on enqueuing meanwhile |
| `ThreadPoolQueue.RunAddsNoWork` | cpp/thread/6_thread_pool.cpp:32-84 | queued tasks, calls still to be made and tasks in the hands of workers together never grow along a run |
| `ThreadPoolQueue.WakesForNoReason` | cpp/thread/6_thread_pool.cpp:33 | a waiting worker may wake up although nothing was accepted and nobody stopped the pool |
| `ThreadPoolOrder.AcceptedInOrder` | cpp/thread/6_thread_pool.cpp:71-84 | the tasks accepted from a client begin its calls, in their order; before stop, the rest are the calls still to be made |
| `ThreadPoolRuns.JoinedMeansExecuted` | cpp/thread/6_thread_pool.cpp:53-70 | when all workers are joined every accepted task has run exactly once |
| `ThreadPoolRuns.RunConserves` | cpp/thread/6_thread_pool.cpp:71-84 | every call of enqueue is outstanding, accepted or rejected: none is lost or answered twice |
| `ThreadPoolRuns.StuckIffFinished` | cpp/thread/6_thread_pool.cpp:30-84 | a state that cannot go on by itself has finished all its work, and conversely |
| `ThreadPoolRuns.RunsAreBounded` | cpp/thread/6_thread_pool.cpp:30-84 | a run is no longer than its start and its number of spurious wakeups allow |
| `ThreadPoolRuns.MaximalRunsFinish` | cpp/thread/6_thread_pool.cpp:20-84 | every run from the constructor that cannot go on has answered every call and run exactly the accepted tasks |
| `ThreadPoolSafety.StepKeepsTasksAnnounced` | cpp/thread/6_thread_pool.cpp:33-83 | no step leaves a queued task unannounced while a worker sleeps |
| `ThreadPoolSafety.StepKeepsRoomAnnounced` | cpp/thread/6_thread_pool.cpp:40-81 | no step leaves a free place unannounced while a client is blocked |
| `ThreadPoolSafety.StepKeepsStopAnnounced` | cpp/thread/6_thread_pool.cpp:53-63 | no step leaves a sleeper behind once the two notify_all calls are over |
| `ThreadPoolSafety.StepKeepsExecuted` | cpp/thread/6_thread_pool.cpp:40-48 | a popped task is in one worker's hands or has run, once for each time it was popped |
| `BoundedBufferRuns.InitialIsInv` | cpp/thread/5_producer_consumer.cpp:21-22 | an empty buffer with no thread inside satisfies the invariant |
| `BoundedBufferRuns.StepKeepsInv` | cpp/thread/5_producer_consumer.cpp:26-62 | every step keeps both mutexes, the exact counter and the announced wakeups |
| `BoundedBufferProof.StepKeepsCounterExact` | cpp/thread/5_producer_consumer.cpp:34-58 | between the slots and the counter nothing is lost: they differ by what threads inside have moved and not yet counted |
| `BoundedBufferRuns.CounterIsContent` | cpp/thread/5_producer_consumer.cpp:9-62 | with no thread inside, the counter is exactly the multiset of the occupied slots, without zero entries |
| `BoundedBufferRuns.RunKeepsSurplus` | cpp/thread/5_producer_consumer.cpp:70-80 | what will be left at the end, slots plus calls of produce minus calls of consume, never changes |
| `BoundedBufferRuns.StuckOutcome` | cpp/thread/5_producer_consumer.cpp:26-62 | where a run can stop, in terms of that surplus: all quotas are met exactly when it lies between zero and the capacity |
| `BoundedBufferRuns.EqualQuotasFinish` | cpp/thread/5_producer_consumer.cpp:70-80 | with equal totals and at least one slot, every run that cannot go on has met all quotas and left the counter empty |
| `BoundedBufferRuns.RunsAreBounded` | cpp/thread/5_producer_consumer.cpp:26-80 | runs are bounded by the quotas and the number of spurious wakeups |
| `BoundedBufferOrder.LastInFirstOut` | cpp/thread/5_producer_consumer.cpp:34-52 | last in, first out: the number that raises the size from n is the one consumed when the size first falls back to n |
| `BoundedBufferOrder.PutInOrder` | cpp/thread/5_producer_consumer.cpp:70-74 | along a run the numbers of a producer go into the buffer in the order given, each once; the rest are still to come |
| `AppleEating.EatenApples` | algorithm/leetcode/priority_queue/1705.cpp:12-57 | the largest number of meals any schedule has, where the apples of a day are eaten from that day on while they are good or on that very day, and no more than there are |
| `AppleEating.EatenApplesMy` | algorithm/leetcode/priority_queue/1705.cpp:63-107 | the same, where they are eaten only while they are good |
| `AppleEating.MaximumIsMost` | algorithm/leetcode/priority_queue/1705.cpp:12-107 | the largest number that any feasible schedule eats is the answer to that question about apples and days |
| `AppleAgreement.BothAgree` | algorithm/leetcode/priority_queue/1705.cpp:12-107 | the two are equal if and only if every day on which apples arrive rotten lies in a stretch of days that lots arriving and rotting within it can fill; and if and only if no best schedule of sound apples fasts on such a day |
| `AppleAgreement.FastingLoses` | algorithm/leetcode/priority_queue/1705.cpp:23-37 | a schedule of sound apples that fasts on a day when apples arrive rotten leaves one apple to the heap version |
| `AppleAgreement.NeededDayIsBusy` | algorithm/leetcode/priority_queue/1705.cpp:63-107 | a day on which every best schedule eats lies in a stretch that its own lots fill |
| `AppleAgreement.MoveMeals` | algorithm/leetcode/priority_queue/1705.cpp:63-107 | meals that can each be put on the next day of a trail free its first day without losing any |
| `AppleAgreement.WithoutRottenMeals` | algorithm/leetcode/priority_queue/1705.cpp:23-37 | when all those days are busy, a schedule that eats rotten apples can be replaced by one that does not and loses nothing |
| `AppleAgreement.RottenOnArrival` | algorithm/leetcode/priority_queue/1705.cpp:23-37 | an input on which they differ: one apple that is rotten on arrival is eaten by the first only |
| `AppleAgreement.RottenButNotMissed` | algorithm/leetcode/priority_queue/1705.cpp:23-37 | an input with a rotten lot on which they agree, because sound apples last for both days |
| `AppleSchedule.Exchange` | algorithm/leetcode/priority_queue/1705.cpp:28-37 | whatever a schedule does today, eating from a lot that rots earliest leaves a schedule for the rest that loses nothing |
| `AppleSchedule.GreedyEats` | algorithm/leetcode/priority_queue/1705.cpp:29-37 | a day on which the earliest lot is eaten keeps the plan as good as any schedule |
| `AppleSchedule.GreedyFasts` | algorithm/leetcode/priority_queue/1705.cpp:29 | a day on which nothing is good to eat keeps it too |
| `AppleSchedule.GreedyEatsUntil` | algorithm/leetcode/priority_queue/1705.cpp:48-54 | so does a whole batch of days on one lot, which is what the second loop does |
| `AppleSchedule.GreedyEnds` | algorithm/leetcode/priority_queue/1705.cpp:41-56 | when everything left is rotten the plan is a best schedule |
| `AppleEating.TopIsEarliest` | algorithm/leetcode/priority_queue/1705.cpp:30 | the top of the heap stands for a lot that rots earliest |
| `AppleEating.EatTheRest` | algorithm/leetcode/priority_queue/1705.cpp:41-55 | the batched tail still ends with a best schedule |
| `AppleEating.EatTopFor` | algorithm/leetcode/priority_queue/1705.cpp:48-54 | one batch: the top entry is eaten until it is used up or rotten |
| `AppleEating.Clean` | algorithm/leetcode/priority_queue/1705.cpp:19-21 | popping what has rotted loses no apple that could be eaten |
| `AppleEating.EraseRotten` | algorithm/leetcode/priority_queue/1705.cpp:74-81 | the same for the map |
| `AppleEating.EatFirst` | algorithm/leetcode/priority_queue/1705.cpp:88-96 | one apple of the earliest day, if there is one |
| `CakeCutting.MinimumCost` | algorithm/leetcode/dynamic_programming/3218.cpp:11-24 | the cost is the least over all orders of guillotine cuts and equals the closed form; the arrays end up sorted |
| `CakeCutting.GreedyCost` | algorithm/leetcode/dynamic_programming/3218.cpp:14-23 | the merge of two sorted arrays adds up the closed form |
| `CakeCutting.Dfs` | algorithm/leetcode/dynamic_programming/3218.cpp:35-62 | for any prices: the least cost over all plans when no piece is counted at more than 65535 |
| `CakeCutting.MinimumCostMy` | algorithm/leetcode/dynamic_programming/3218.cpp:27-29 | the same for the whole cake; for prices that are not negative it is the greedy cost or 65535 if that is less, and the least cost exactly when the greedy cost does not exceed 65535 |
| `CakeCutting.CappedIsCost` | algorithm/leetcode/dynamic_programming/3218.cpp:44-59 | for prices that are not negative, counting pieces at the sentinel changes a plan only if its whole cost exceeds it |
| `CakeCutting.SentinelIsTooLow` | algorithm/leetcode/dynamic_programming/3218.cpp:44 | an input on which the recursion is too low: one line at 65536 |
| `CakeCutting.NegativePricesGainTooMuch` | algorithm/leetcode/dynamic_programming/3218.cpp:44-59 | an input with a negative price on which it is too low although the least cost is only 65535 |
| `CakeCutting.NoPlanIsCheaper` | algorithm/leetcode/dynamic_programming/3218.cpp:35-62 | no order of cuts costs less than the closed form |
| `CakeCutting.CheapestPlan` | algorithm/leetcode/dynamic_programming/3218.cpp:11-24 | some order costs exactly that |
| `CakeCutting.PriceIsLeast` | algorithm/leetcode/dynamic_programming/3218.cpp:11-24 | the closed form is the least cost of the whole cake |
| `CakeCutting.PricePermuted` | algorithm/leetcode/dynamic_programming/3218.cpp:12-13 | it does not depend on the order of the prices, so sorting them is harmless |
| `CakeCutting.PriceSymmetric` | algorithm/leetcode/dynamic_programming/3218.cpp:16-22 | rows and columns play the same part |
| `CakeCutting.RowCut` | algorithm/leetcode/dynamic_programming/3218.cpp:45-51 | a first cut along a row costs at least the closed form, and exactly that if no column line is dearer |
| `Sorting.Sort` | algorithm/leetcode/dynamic_programming/3218.cpp:12-13 | the library contract of sort: ascending, a permutation, nothing outside the range touched |
| `ExamRoom.ExamRoom.Seat` | algorithm/leetcode/simulation/855.cpp:32-64 | in a room that is not full: the smallest free seat that is farthest from every student; a full room returns 0 and seats nobody |
| `ExamRoom.ExamRoom.Leave` | algorithm/leetcode/simulation/855.cpp:66-72 | the student is gone, and every gap between neighbours is queued again |
| `ExamRoom.ExamRoom.BestGap` | algorithm/leetcode/simulation/855.cpp:39-53 | the queue is never empty when its top is taken, and the first gap that is not outdated is a best one |
| `ExamRoom.ExamRoom.SeatInGap` | algorithm/leetcode/simulation/855.cpp:39-54 | the middle of the best gap is taken exactly when it beats both ends |
| `ExamRoom.ExamRoom.TakeAnEnd` | algorithm/leetcode/simulation/855.cpp:55-63 | otherwise the better end is a best seat |
| `ExamRoom.MiddleIsBest` | algorithm/leetcode/simulation/855.cpp:43-51 | the middle of a best gap that beats both ends is the smallest farthest seat |
| `ExamRoom.RightEndIsBest` | algorithm/leetcode/simulation/855.cpp:55-58 | the same for the last seat |
| `ExamRoom.LeftEndIsBest` | algorithm/leetcode/simulation/855.cpp:59-62 | the same for seat 0, which is free unless the room is full |
| `ExamRoom.NearestInGap` | algorithm/leetcode/simulation/855.cpp:14-17 | inside a gap the nearest student is one of its two ends |
| `ExamRoom.SplitGap` | algorithm/leetcode/simulation/855.cpp:47-50 | replacing a gap by its two halves keeps every current gap queued |
| `ExamRoom.CloseGap` | algorithm/leetcode/simulation/855.cpp:67-71 | joining the two gaps around a leaver does too |
| `ExamRoom.TopIsBestGap` | algorithm/leetcode/simulation/855.cpp:16 | a top gap that is current is no worse than any current gap, and leftmost among equals |
| `PriorityQueue.Top` | algorithm/leetcode/simulation/855.cpp:25 | the library contract of the top of a priority queue: an element that no other outranks |
| `JumpGame.MinJumps` | algorithm/leetcode/bfs/1345.cpp:68-116 | the least number of jumps from the first index to the last over all paths; 0 for an empty array |
| `JumpGame.Layer` | algorithm/leetcode/bfs/1345.cpp:84-112 | a layer is left with the least number of jumps found, or with the next layer complete |
| `JumpGame.FirstHitIsLeast` | algorithm/leetcode/bfs/1345.cpp:88-90 | when the last index is expanded its layer is the least number of jumps |
| `JumpGame.ShortPathsAreDone` | algorithm/leetcode/bfs/1345.cpp:83-114 | every index on a path shorter than the current layer has been expanded, at a level no later than the path reaches it |
| `JumpGame.Finish` | algorithm/leetcode/bfs/1345.cpp:104-111 | an index is done when its neighbours are visited, and clearing its value's list loses no jump that is still needed |
| `JumpGame.Push` | algorithm/leetcode/bfs/1345.cpp:92-110 | a newly visited index enters the next layer, so the queue holds two consecutive layers at most |
| `JumpGame.Pop` | algorithm/leetcode/bfs/1345.cpp:86-87 | the front of the queue belongs to the current layer |
| `JumpGame.DryQueueMeansAllDone` | algorithm/leetcode/bfs/1345.cpp:83 | the queue cannot run dry before every index has been reached |
| `JumpGame.Index` | algorithm/leetcode/bfs/1345.cpp:72-75 | for each value, exactly its indices |
| `JumpGame.Expand` | algorithm/leetcode/bfs/1345.cpp:92-111 | everything that can be jumped to from the index is visited |
| `TimerSpec.TickKeepsPaired` | project/linux_server_programming/chapter11_timer/ascending_linkedlist_timer_impl.h:114-134 | list and heap: two containers with paired timers make the same calls with the same deadlines in the same order at any clock reading, and stay paired |
| `TimerScripts.RunBoth` | project/linux_server_programming/chapter11_timer/min_heap_timer.h:71-130 | over whole scripts run on a sorted list and on a heap: the same adds, deletes and clock readings make both call timers with the same deadlines in the same order, namely those due |
| `TimerScripts.RunList` | project/linux_server_programming/chapter11_timer/ascending_linkedlist_timer_impl.h:46-153 | a script run on the list makes the calls that its timers and clock readings ask for |
| `TimerScripts.RunHeap` | project/linux_server_programming/chapter11_timer/min_heap_timer.h:71-130 | a script run on the heap does so too, through growth and lazy deletion |
| `TimerScripts.LogsOne` | project/linux_server_programming/chapter11_timer/min_heap_timer.h:115-130 | a script has one such log, whatever the order of timers with equal deadlines |
| `TimerSpec.RunsAgree` | project/linux_server_programming/chapter11_timer/min_heap_timer.h:71-130 | for any two containers that do what a tick promises: the same adds, deletes and clock readings give calls with the same deadlines in the same order |
| `TimerSpec.AddKeepsPaired` | project/linux_server_programming/chapter11_timer/ascending_linkedlist_timer_impl.h:46-61 | adding one timer with the same deadline to both keeps them paired |
| `TimerSpec.DelKeepsPaired` | project/linux_server_programming/chapter11_timer/ascending_linkedlist_timer_impl.h:84-109 | so does deleting a pair |
| `TimerSpec.SameDeadlines` | project/linux_server_programming/chapter11_timer/ascending_linkedlist_timer_impl.h:114-134 | two listings of the same timers by deadline show the same deadlines, whatever the order of ties |
| `TimerList.SortedTimerList.AddTimer` | project/linux_server_programming/chapter11_timer/ascending_linkedlist_timer_impl.h:46-61 | the timer is pending with its deadline, the rest is as before; the list stays sorted and its links well formed |
| `TimerList.SortedTimerList.AddAfter` | project/linux_server_programming/chapter11_timer/ascending_linkedlist_timer_impl.h:137-153 | the same for the walk from an inner node |
| `TimerList.SortedTimerList.AdjustTimer` | project/linux_server_programming/chapter11_timer/ascending_linkedlist_timer_impl.h:65-83 | after a deadline was put off the list is sorted again and holds the same timers and deadlines |
| `TimerList.SortedTimerList.PutOff` | project/linux_server_programming/chapter11_timer/close_nonactivity_connection.cpp:195-201 | an extension by a user of the list: exactly that timer has the later deadline, and the list is valid again |
| `TimerList.SortedTimerList.DelTimer` | project/linux_server_programming/chapter11_timer/ascending_linkedlist_timer_impl.h:84-109 | exactly that timer is no longer pending, in each of the four cases |
| `TimerList.SortedTimerList.Tick` | project/linux_server_programming/chapter11_timer/ascending_linkedlist_timer_impl.h:114-134 | calls exactly the timers that are due, earliest first, each once, and keeps exactly the others |
| `TimerList.SplicedIn` | project/linux_server_programming/chapter11_timer/ascending_linkedlist_timer_impl.h:144-152 | what the link writes around a new node leave is a doubly linked list |
| `TimerList.CutOut` | project/linux_server_programming/chapter11_timer/ascending_linkedlist_timer_impl.h:73-81 | what the link writes around a removed node leave is a doubly linked list |
| `TimerList.PutOffIsLate` | project/linux_server_programming/chapter11_timer/ascending_linkedlist_timer_impl.h:62-65 | putting off one deadline of a sorted list gives a state that adjust_timer accepts |
| `TimeHeap.TimeHeap.constructor` | project/linux_server_programming/chapter11_timer/min_heap_timer.h:34-42 | an empty heap of the given capacity |
| `TimeHeap.TimeHeap.FromArray` | project/linux_server_programming/chapter11_timer/min_heap_timer.h:44-64 | refused exactly when the capacity is too small; otherwise the given timers are pending, in heap order |
| `TimeHeap.TimeHeap.Heapify` | project/linux_server_programming/chapter11_timer/min_heap_timer.h:60-62 | bottom-up percolation gives a heap of the same timers |
| `TimeHeap.TimeHeap.PercolateDown` | project/linux_server_programming/chapter11_timer/min_heap_timer.h:136-151 | the order holds from the hole on, for the same timers |
| `TimeHeap.TimeHeap.AddTimer` | project/linux_server_programming/chapter11_timer/min_heap_timer.h:71-89 | the timer is pending with its deadline, growing the array when it is full |
| `TimeHeap.TimeHeap.Rise` | project/linux_server_programming/chapter11_timer/min_heap_timer.h:78-88 | percolation upwards restores the order |
| `TimeHeap.TimeHeap.Resize` | project/linux_server_programming/chapter11_timer/min_heap_timer.h:152-166 | twice the capacity, the same timers in the same cells |
| `TimeHeap.TimeHeap.DelTimer` | project/linux_server_programming/chapter11_timer/min_heap_timer.h:90-97 | the timer is no longer pending although it stays in its cell |
| `TimeHeap.TimeHeap.Top` | project/linux_server_programming/chapter11_timer/min_heap_timer.h:98-103 | null exactly when empty, otherwise a timer no later than any other |
| `TimeHeap.TimeHeap.PopTimer` | project/linux_server_programming/chapter11_timer/min_heap_timer.h:104-113 | exactly the root is gone |
| `TimeHeap.TimeHeap.Tick` | project/linux_server_programming/chapter11_timer/min_heap_timer.h:114-130 | calls exactly the timers that are due and not deleted, earliest first, each once, and keeps exactly the others |
| `TimeHeap.RootIsEarliest` | project/linux_server_programming/chapter11_timer/min_heap_timer.h:135 | in a heap the root is no later than any node |
| `TimeWheel.TimeWheel.AddTimer` | project/linux_server_programming/chapter11_timer/time_wheel_timer.h:46-71 | null exactly for a negative timeout; otherwise a new timer whose countdown is the timeout, or 1 for a timeout of 0, all other countdowns as before |
| `TimeWheel.TimeWheel.DelTimer` | project/linux_server_programming/chapter11_timer/time_wheel_timer.h:72-90 | exactly that timer has no countdown any more, and the slot lists stay well formed |
| `TimeWheel.TimeWheel.Tick` | project/linux_server_programming/chapter11_timer/time_wheel_timer.h:92-122 | calls exactly the timers whose countdown is zero, each once, and lowers every other countdown by one |
| `TimeWheel.TimeWheel.RunSlot` | project/linux_server_programming/chapter11_timer/time_wheel_timer.h:93-120 | the timers of the slot lose a turn, or are called and unlinked when none is left; other slots are untouched |
| `TimeWheel.TimeWheel.Unlink` | project/linux_server_programming/chapter11_timer/time_wheel_timer.h:76-89 | the list without that node, still doubly linked, and the node that followed |
| `TimeWheel.FiresOnce` | project/linux_server_programming/chapter11_timer/time_wheel_timer.h:46-122 | over any run of adds, deletes and ticks, in which the calls made by each tick are those that Tick promises, a timer that is left alone is called exactly once, by the first tick after its countdown has run out: tick call number ticks + 1 after insertion |
| `TimeWheel.AddedFiresOnce` | project/linux_server_programming/chapter11_timer/time_wheel_timer.h:46-122 | a timer that is added and then left alone is called once if the run has more ticks than its timeout and than 1, and otherwise not at all |
| `TimeWheel.PlacedAhead` | project/linux_server_programming/chapter11_timer/time_wheel_timer.h:59-61 | rotation and slot of a new timer encode its number of ticks |
| `TimeWheel.Turned` | project/linux_server_programming/chapter11_timer/time_wheel_timer.h:97-121 | moving on by one slot lowers the encoded countdown by one |
| `StreetGrid.Solution.HasValidPath` | algorithm/leetcode/disjoint_set/1391.cpp:93-194 | true exactly when a path of mutually open streets joins the two corner cells |
| `StreetGrid.ConnectedIsPath` | algorithm/leetcode/disjoint_set/1391.cpp:187-193 | with every open pair linked and nothing else, connected corners and such paths are the same |
| `StreetGrid.Solution.Visit` | algorithm/leetcode/disjoint_set/1391.cpp:106-183 | the street in a cell is linked to exactly the neighbours it shares an opening with |
| `StreetGrid.Solution.DetectL` | algorithm/leetcode/disjoint_set/1391.cpp:48-57 | whether the street on the left exists and opens to the right |
| `StreetGrid.Solution.DetectR` | algorithm/leetcode/disjoint_set/1391.cpp:58-67 | whether the street on the right exists and opens to the left |
| `StreetGrid.Solution.DetectU` | algorithm/leetcode/disjoint_set/1391.cpp:68-77 | whether the street above exists and opens downwards |
| `StreetGrid.Solution.DetectB` | algorithm/leetcode/disjoint_set/1391.cpp:78-87 | whether the street below exists and opens upwards |
| `StreetGrid.OpensBySide` | algorithm/leetcode/disjoint_set/1391.cpp:48-87 | which streets open to each side, and that nothing else does |
| `StreetGrid.StreetsAreAllPairs` | algorithm/leetcode/disjoint_set/1391.cpp:106-183 | there is exactly one street for every two sides |
| `StreetGrid.IdRoundTrip` | algorithm/leetcode/disjoint_set/1391.cpp:100-102 | cells and their numbers determine each other |
| `DisjointSets.DisjointSet.constructor` | algorithm/leetcode/disjoint_set/1391.cpp:9-15 | every node alone, nothing linked |
| `DisjointSets.DisjointSet.FindRoot` | algorithm/leetcode/disjoint_set/1391.cpp:20-26 | ends, at the root of the node's tree |
| `DisjointSets.DisjointSet.UnionNums` | algorithm/leetcode/disjoint_set/1391.cpp:27-33 | the forest stays acyclic, and one more link is recorded |
| `DisjointSets.DisjointSet.FindRootTellsConnection` | algorithm/leetcode/disjoint_set/1391.cpp:20-33 | equal roots are exactly the equivalence closure of the unions made |
| `DisjointSets.UnionKeepsForest` | algorithm/leetcode/disjoint_set/1391.cpp:30-32 | hanging one root under another keeps the array an acyclic forest |
| `DisjointSets.UnionKeepsFaithful` | algorithm/leetcode/disjoint_set/1391.cpp:27-33 | and keeps roots and connections in agreement |
| `DisjointSets.SameRootIsConnected` | algorithm/leetcode/disjoint_set/1391.cpp:20-33 | in such a forest two nodes have the same root exactly when a chain of links joins them |
| `DecodeString.Func` | algorithm/leetcode/stack/decode_string.cpp:13-71 | the expansion of every well-formed text |
| `DecodeString.FuncRecursion` | algorithm/leetcode/stack/decode_string.cpp:73-97 | the same expansion, and the position behind the text or its closing bracket |
| `DecodeString.TimesIsCopies` | algorithm/leetcode/stack/decode_string.cpp:52-56 | k copies of a string: its length times k, and its characters over and over |
| `DecodeString.ValueIsDecimal` | algorithm/leetcode/stack/decode_string.cpp:28-35 | a count is the sum of its digits times powers of ten |
| `DecodeString.DigitsAndLetters` | algorithm/leetcode/stack/decode_string.cpp:28-37 | which characters are digits and which are letters |
| `DecodeString.MachineDecodes` | algorithm/leetcode/stack/decode_string.cpp:25-62 | the two-stack machine turns the printed form of a text into its expansion |
| `DecodeString.RunExpands` | algorithm/leetcode/stack/decode_string.cpp:25-62 | running over a text appends its expansion to the character stack and leaves what is below on both stacks alone |
| `DecodeString.RunClose` | algorithm/leetcode/stack/decode_string.cpp:39-57 | a closing bracket repeats what stands above the last opening one |
| `DecodeString.LexPrints` | algorithm/leetcode/stack/decode_string.cpp:26-36 | reading a string in which a text stands yields the tokens of that text, multi-digit counts included |
| `DecodeString.DecodingIsUnique` | algorithm/leetcode/stack/decode_string.cpp:7-12 | a string has one expansion, however it is read as a text |
| `DecodeString.PopGroup` | algorithm/leetcode/stack/decode_string.cpp:40-47 | popping down to the bracket and reversing splits the stack at its last opening bracket |
| `DecodeString.ReadNumber` | algorithm/leetcode/stack/decode_string.cpp:28-35 | the number that stands there, and where its bracket is |
| `Queens.Solution.SolveNQueens` | algorithm/leetcode/backtracking/51.cpp:33-37 | boards of n rows of n characters, Q or dot, are appended: the squares with a Q are n queens that do not attack each other, and every such set of queens is on exactly one of the boards, for every n |
| `Queens.Solution.Dfs` | algorithm/leetcode/backtracking/51.cpp:38-71 | appends the boards of all completions of the rows above, whatever the rows below hold |
| `Queens.Solution.IsVaild` | algorithm/leetcode/backtracking/51.cpp:7-29 | true exactly when no queen above attacks the square |
| `Queens.SolutionsExact` | algorithm/leetcode/backtracking/51.cpp:38-71 | the search tree holds exactly the safe full placements that extend the prefix |
| `Queens.SolutionsDistinct` | algorithm/leetcode/backtracking/51.cpp:38-71 | and none of them twice |
| `Queens.SearchFindsAll` | algorithm/leetcode/backtracking/51.cpp:33-37 | so the boards of the whole tree show every peaceful set of n queens once and nothing else |
| `Queens.QueensOnBoard` | algorithm/leetcode/backtracking/51.cpp:58-67 | the queens on the board of a placement are its squares |
| `Queens.PeacefulIsPlacement` | algorithm/leetcode/backtracking/51.cpp:7-9 | n queens on the board of which none attacks another have one in each row, so no solution is missed by going row by row |
| `Queens.SafeIsPeaceful` | algorithm/leetcode/backtracking/51.cpp:7-9 | and every placement found is such a set of queens |
| `RainWater.TrapDp` | algorithm/leetcode/array/42.cpp:9-22 | the sum over all positions of the lower of the two running maxima minus the height, which is the number of unit squares above the bars that have a bar on either side |
| `RainWater.TrapDs` | algorithm/leetcode/array/42.cpp:26-42 | the same sum, from the descending stack |
| `RainWater.TrappedIsSquares` | algorithm/leetcode/array/42.cpp:9-22 | that sum is the number of enclosed unit squares |
| `RainWater.PopLower` | algorithm/leetcode/array/42.cpp:30-38 | the pops for one bar raise the counted water to what a wall of that height holds |
| `RainWater.PopRaises` | algorithm/leetcode/array/42.cpp:36-37 | one pop adds the width to the next entry times the rise of the level |
| `RainWater.HighWall` | algorithm/leetcode/array/42.cpp:33-35 | when the stack runs empty nothing is missed |
| `RainWater.HeldIsTrapped` | algorithm/leetcode/array/42.cpp:41 | the water held by the whole prefix is the sum of the other method |
| `NextPermutation.NextPermutation` | algorithm/leetcode/array/31.cpp:8-35 | a permutation of the input: the least one greater than it in lexicographic order, or the sorted one when none is greater, repeated elements included |
| `NextPermutation.RaisedIsLeast` | algorithm/leetcode/array/31.cpp:20-31 | no permutation lies between the input and the result |
| `NextPermutation.SortedIsNext` | algorithm/leetcode/array/31.cpp:32-34 | a descending input has no greater permutation |
| `NextPermutation.DescendingIsLast` | algorithm/leetcode/array/31.cpp:13-18 | no permutation of a descending sequence rises above it where they first differ |
| `NextPermutation.AscendingIsFirst` | algorithm/leetcode/array/31.cpp:30-31 | the sorted sequence is the first of its permutations |
| `NextPermutation.FindAscent` | algorithm/leetcode/array/31.cpp:12-18 | the last ascent, or -1 for a descending sequence |
| `NextPermutation.FindLeastGreater` | algorithm/leetcode/array/31.cpp:20-28 | a least element greater than the pivot, behind it |
| `BallBags.MinimumSize` | algorithm/leetcode/binary_search/1760.cpp:29-46 | the least y such that some sequence of at most maxOperations splits leaves every bag with at most y |
| `BallBags.AchievableIffEnough` | algorithm/leetcode/binary_search/1760.cpp:36-39 | the sum of (num - 1) / y is the exact number of splits needed |
| `BallBags.RunsNeedThat` | algorithm/leetcode/binary_search/1760.cpp:6-13 | no sequence of splits is shorter than that |
| `BallBags.SomeRunDoes` | algorithm/leetcode/binary_search/1760.cpp:6-13 | some sequence is exactly that long |
| `BallBags.NeedAllFalls` | algorithm/leetcode/binary_search/1760.cpp:38-44 | the number falls as y grows, so the search may halve |
| `CoveringSubstrings.ValidSubstringCount` | algorithm/leetcode/sliding_window/3297.cpp:6-30 | the number of pairs of ends whose substring has among its letters those of t, for lower-case strings and a non-empty t |
| `CoveringSubstrings.ValidSubstringCountBySummary` | algorithm/leetcode/sliding_window/3297.cpp:38-77 | the same number, from the summary of how many letters are short |
| `CoveringSubstrings.TotalIsNumber` | algorithm/leetcode/sliding_window/3297.cpp:24-27 | adding up the covering starts for every end counts every such substring once |
| `CoveringSubstrings.NothingShortIsCovered` | algorithm/leetcode/sliding_window/3297.cpp:48-64 | the summary is zero exactly when the full scan finds the window covered |
| `CoveringSubstrings.TakeIn` | algorithm/leetcode/sliding_window/3297.cpp:58-63 | the summary stays exact when a letter enters |
| `CoveringSubstrings.LetGo` | algorithm/leetcode/sliding_window/3297.cpp:65-72 | and when one leaves |
| `CoveringSubstrings.IsCovered` | algorithm/leetcode/sliding_window/3297.cpp:6-13 | true exactly when the window has every letter often enough |
| `CoveringSubstrings.CoversIsContains` | algorithm/leetcode/sliding_window/3297.cpp:6-13 | that is, when the letters of t are among those of the substring |
| `CoveringSubstrings.StartsBeforeLeft` | algorithm/leetcode/sliding_window/3297.cpp:24-27 | the starts that cover are exactly those before left |
| `CoveringSubstrings.ShortTextNeverCovers` | algorithm/leetcode/sliding_window/3297.cpp:39-41 | a string shorter than t has no covering substring |
| `RandomList.CopyRandomList` | algorithm/leetcode/linked_list/LCR154.cpp:20-41 | a fresh list with the same values, the same shape and the same random links; a random link that leaves the list becomes null; nothing old is changed |
| `RandomList.CopyNodes` | algorithm/leetcode/linked_list/LCR154.cpp:23-32 | values and next links copied, and the mapping takes each node to its copy and nothing else |
| `RandomList.FillRandoms` | algorithm/leetcode/linked_list/LCR154.cpp:33-39 | random links carried over through the mapping |

## Left out

- Sockets, epoll, signals, media, Boost and libevent code: kernel and library behaviour is invisible here.
- The reactor servers: mostly callback wiring and descriptor lifetimes; their pool is an unbounded variant of the one modelled.
- Printing, `main` functions, random numbers, thread ids and object addresses: the numbers produced are parameters of the initial state.
- Machine integers: overflow of sums, counters and ids is not modelled.
- Memory reclamation: a node leaves its structure; that it is freed, and that nobody keeps a pointer to it, is not modelled. Destructors of the timer containers are left out for the same reason.
- Thread pool: threads still inside `enqueue` while the object's members are destroyed, and tasks that throw something other than `std::exception`.
- Timer callbacks that call back into the container.
- `minJumps` of 1345.cpp:10-66: the search over an edge matrix is the same breadth-first search without clearing; its edge relation is `JumpGame.Edge`.
- Strings outside the k[...] grammar are not modelled for the two decoders.
- RandomList.CopyRandomList: a next chain that runs in a circle is not modelled; the source does not end on it.
- CoveringSubstrings.ValidSubstringCount: an empty t is not modelled; the source then reads past the end of s.
