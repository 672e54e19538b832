# WinsockTut: the event loops and their timers

WinsockTut wraps the Windows I/O models behind two small interfaces, `PollerBase` (reactors) and `IOServiceBase`
(proactors). Both inherit `TimerSched`, and all of them call user code that may call straight back into them. This
project models those loops with the re-entrancy in them, and proves what they keep, what they call and when they go
wrong.

- **Timers.** `TimerSched` is an indexed binary heap of timer entries beside an id-to-entry table. `TimerModel` says what
  it means: a map from id to (expire, sink), plus the ids that were cancelled while pending. `TimerHeap` holds the heap
  lemmas, `TimerScheduler` the class, `TimerLaws` the laws of one expiry pass, `TimerFaults` exactly when a cancel reads
  deleted memory, `TimerRuns` the laws of whole runs, `TimerClients` which clients see every call return, and
  `TimerFlaws` concrete inputs on which timers misbehave.
- **Reactors.** `SelectModel`, `SelectReactor` and `SelectLaws` model the `select()` poller: registry, three fd_sets and
  a dispatch sweep whose handlers add and remove sockets. `EventModel`, `EventReactor` and `EventLaws` model the
  `WSAEventSelect()` poller: interest masks, event snapshot and lookup, dispatch. Each poller contains a `TimerSched`, and
  its socket handlers and timer callbacks (`PollEvents`) mix calls on sockets and on timers. `Compaction` is the removal
  of retired entries both share; `EventHistory` explains every registered entry by its own calls; `SelectClients` and
  `EventClients` follow whole runs of sockets and timers together, command by command.
- **Proactors.** `PortModel`, `PortLaws`, `CompletionPort` and `PortClients` model the life of contexts in the
  completion-port service over all interleavings of application, kernel and `Run`, completions arriving also in the
  middle of a callback. `OverlappedModel`, `OverlappedService` and `OverlappedClients` do so for the event-based
  overlapped service.

User code is a parameter everywhere: a script of calls per callback, which the methods really execute on the object. A
timer id fires at most once in a run (`TimerRuns.FiresAtMostOnce`), and a handler is called at most once per position and
stage of a sweep (`SelectLaws.LogIsOrdered`), so keying scripts by them covers callbacks that depend on any history. The
clock, `select()`, the event waits, handle creation and completion status are parameters too. Undefined behaviour is
modelled as an explicit outcome: reading a deleted entry or context, calling a null sink, signed overflow of the next
timer id, and a loop that can make no further progress. The boolean `freed` and `deleted` fields stand for the allocator.

## What the code does that its comments and names do not say

Each is kept as it is in the model, with an exact condition and an input on which it shows.

- `UpdateTimer` means to leave timers created by callbacks of the same pass alone. It does process the first one, and
  it loops for ever on any further one that is already due (`TimerLaws.NewcomerFires`, `TimerLaws.SpinsExactly`,
  `TimerFlaws`). It terminates otherwise, whatever callbacks do (`TimerLaws.PassIsBounded`).
- `CancelTimer` deletes the entry but leaves its id in the table. Inside a script, a callback, a pass or a run it reads
  deleted memory exactly when it is given an id that was cancelled before while pending (`TimerFaults.OpFaultsExactly`,
  `TimerFaults.PassFaultsExactly`, `TimerRuns.CancelIsSafe`, `TimerFlaws.SecondCancelFaults`); a client that cancels no
  id at two places never gets there (`TimerClients.CancelsOnceIsSafe`).
- `SelectPoller::Poll` re-checks a stale copy of the socket. A handler that removes the socket it was called for makes
  it call a null sink exactly if that socket is ready for a later stage too (`SelectLaws.CrashesExactly`,
  `SelectLaws.SelfRemovalCrashes`). A socket removed and registered again in one sweep is called for readiness that was
  reported to the old registration (`SelectLaws.WhoIsCalled`, `SelectLaws.ReaddedIsCalled`). Once all sockets are removed
  between two polls `select()` is given empty sets and fails, so that no poll comes to the timers or to the compaction
  until a socket is registered (`SelectClients.PassIsReachedExactly`, `SelectClients.Starves`).
- `AsyncEventPoller::HandleEvents` tests the mask with a bitwise or, which lets every event pass. What it does is what
  the masks are kept for exactly if every event that occurred is wanted at its turn (`EventLaws.MaskIsIgnoredExactly`,
  `EventLaws.CalledWithoutInterest`). It also calls handlers after an earlier one removed the socket
  (`EventLaws.CallsLiveExactly`, `EventLaws.RemovedThenCalled`). `FD_CLOSE` interest follows the last of the four
  interest calls (`EventLaws.InterestAfter`, `EventLaws.ResetOutLosesClose`). A handle closed and reissued by a timer
  callback leads the poll to another socket (`EventLaws.LookupMisledExactly`). A poll that dispatches returns before the
  retired entries are dropped, so `AddFd` can be refused with few sockets registered, or none
  (`EventLaws.NothingLeaves`, `EventLaws.RefusedTooEarlyExactly`, `EventLaws.FullOfRetired`).
- `FLAG_LAZY_DELETE` is 3 and so shares its bits with the other two flags (`PortLaws.CancelFlagDefersDelete`). After a
  callback `Run` deletes the context exactly if a flag is set, freed or not, and under an operation the callback started
  (`PortLaws.RunDeletesExactly`); it reads a deleted context exactly if the callback freed it with no flag set
  (`PortLaws.FreeInOwnCallbackFaultsExactly`). `PortLaws.FaultsAreReachable` reaches each of these. A failed
  completion returns before the delete, so a context freed while its operation is cancelled is never deleted
  (`PortLaws.DeletedExactlyOnSuccess`, `PortLaws.LeaksForEver`, `PortLaws.LeakIsReachable`).

## Model

| member | source | states |
|---|---|---|
| MachineInts.GuardIsExact | src/TimerSched.cpp:52-59 | under 32-bit wrap-around siftdown's bound test holds iff the mathematical child index is at or past n, and once it passes neither child index has wrapped |
| TimerHeap.SwapDown | src/TimerSched.cpp:57-70 | pushing an item past its earlier child leaves a heap that is broken only below that child |
| TimerHeap.SwapUp | src/TimerSched.cpp:79-87 | pulling an item past its later parent leaves a heap that is broken only above that parent |
| TimerHeap.SinkEnds | src/TimerSched.cpp:47-73 | when siftdown stops, the heap order is whole if the item moved; if not, nothing changed and only the edge to its parent may be wrong |
| TimerHeap.RootIsEarliest | src/TimerSched.cpp:112-116 | no timer in the heap expires before the root |
| TimerHeap.WeightIsPower | src/TimerSched.cpp:47-89 | Weight(x, k), in which the sifts state their number of swaps, is (x+1)*2^k, the one-based number of the leftmost position k levels below x |
| TimerScheduler.TimerSched.NextDown | src/TimerSched.cpp:52-66 | the position siftdown goes to is the earlier child if it precedes the item, else siftdown stops and no child precedes it |
| TimerScheduler.TimerSched.SiftDown | src/TimerSched.cpp:47-73 | started with damage around x only: permutes only x's subtree among the first n entries, keeps every index right, reports exactly whether the item moved, restores the order if it did and leaves only the parent edge open if not; logarithmically many swaps |
| TimerScheduler.TimerSched.SiftUp | src/TimerSched.cpp:75-89 | started with damage above x only: restores the heap order, permutes only the path from x to the root, keeps every index right; logarithmically many swaps |
| TimerScheduler.TimerSched.AddTimer | src/TimerSched.cpp:93-104 | the new timer is pending under the next id with its sink and, in the 64-bit range, expires `millsec` after the clock reading; everything else is unchanged, heap, indices and table agree; it fails only when the ids are used up; at most log2 of the heap size exchanges |
| TimerScheduler.TimerSched.Refill | src/TimerSched.cpp:149-157 | replacing any position by the last entry, sifting down and only if that did not move sifting up, restores the heap order; at most 1 + log2 of the heap size exchanges, the first included |
| TimerScheduler.TimerSched.CancelTimer | src/TimerSched.cpp:135-160 | from any heap position: the contents lose exactly that entry, which is deleted; a fired or unknown id is a no-op, an id cancelled before reads deleted memory; at most 1 + log2 of the heap size exchanges |
| TimerScheduler.TimerSched.PopRoot | src/TimerSched.cpp:121-126 | the earliest entry leaves heap and table, everything else stays pending; at most 1 + log2 of the heap size exchanges |
| TimerScheduler.TimerSched.DeleteFired | src/TimerSched.cpp:127-131 | the entry whose callback returned is deleted once, and then every entry ever allocated is in the heap or deleted |
| TimerScheduler.TimerSched.UpdateTimer | src/TimerSched.cpp:106-133 | with callbacks that re-enter the object, terminates (but for the no-progress branch, reported as such), is a pass of the abstract model and lists the callbacks it ran; no entry is leaked |
| TimerScheduler.RootMeans | src/TimerSched.cpp:112-116 | the root of the heap is the earliest pending timer of the abstract map |
| TimerScheduler.RemovedMeans | src/TimerSched.cpp:121-126 | taking an entry out of the heap cancels its timer if the table keeps its id and merely ends it if the table drops it |
| TimerLaws.RunOpsKeeps | src/TimerSched.cpp:93-104 | a callback script leaves every earlier timer unchanged and pending exactly if it does not cancel it, and reissues no id |
| TimerLaws.AddDoes | src/TimerSched.cpp:93-104 | adding a timer makes it pending to expire at clock reading plus delay, with its sink, under the next id, and changes no other; refused iff the ids are used up |
| TimerLaws.AddedExpires | src/TimerSched.cpp:93-104 | a timer that any script adds and does not cancel is pending with its sink and expires its own delay after its own clock reading |
| TimerLaws.PassIsBounded | src/TimerSched.cpp:110-132 | whatever callbacks do, a pass fires at most one timer more than were pending at entry |
| TimerLaws.FiredOnce | src/TimerSched.cpp:121-131 | no timer fires twice in a pass, and a fired timer is gone from every later state |
| TimerLaws.CalledBackMembers | src/TimerSched.cpp:121-130 | the timers called back in a pass are just those it fires that have a sink |
| TimerLaws.CalledBackInOrder | src/TimerSched.cpp:121-130 | they are called in the order in which they fire |
| TimerLaws.FiresExactlyTheDue | src/TimerSched.cpp:106-133 | a pass that ends fires a pending timer iff it is due and no earlier callback of the pass cancelled it; what is not due survives unchanged unless cancelled |
| TimerLaws.PolitePass | src/TimerSched.cpp:106-133 | if the callbacks of the timers due at entry add only timers expiring after now: the pass never spins, fires exactly the due timers pending at entry that were not cancelled first, in non-decreasing expire order, and leaves nothing due |
| TimerLaws.PositiveDelayIsPolite | src/TimerSched.cpp:97 | a script that adds with positive delays at clock readings no earlier than the pass's adds only timers expiring after now, in 64-bit arithmetic |
| TimerLaws.SpinsExactly | src/TimerSched.cpp:117-120 | the loop runs for ever iff a callback added, and nothing later cancelled, an already due timer that is not the first created in the pass |
| TimerLaws.NewcomerFires | src/TimerSched.cpp:117-120 | a timer created in the pass is fired by it iff it is due and not cancelled before its turn, and then it is the first one created |
| TimerLaws.AddedBeforePass | src/SelectPoller.cpp:105-135 | timers that socket handlers add before the expiry pass of the same poll are all fired by it, iff due and not cancelled first |
| TimerFaults.OpFaultsExactly | src/TimerSched.cpp:137-159 | operation j of any script reads a deleted entry iff it cancels an id cancelled while pending before the script or by an earlier operation of it |
| TimerFaults.ScriptFaultsExactly | src/TimerSched.cpp:137-159 | a script reads a deleted entry iff it reaches such a second cancel |
| TimerFaults.PassFaultsExactly | src/TimerSched.cpp:110-160 | an expiry pass ends by reading a deleted entry iff some callback cancels an id that was cancelled while pending before the pass, by an earlier callback of it, or earlier in its own script |
| TimerFaults.PassUsesIds | src/TimerSched.cpp:93-133 | if no callback adds more than m timers a pass issues at most m ids for each timer pending at entry and for one more, and overflows the id counter only if that bound does |
| TimerFaults.LiveInPass | src/TimerSched.cpp:110-132 | every turn of a pass takes one timer away: pending timers plus turns never exceed the timers pending at entry plus the ids issued |
| TimerFlaws.TwoZeroDelaysSpin | src/TimerSched.cpp:118-120 | a concrete callback adding two timers without delay makes every pass spin |
| TimerFlaws.OneZeroDelayFiresAtOnce | src/TimerSched.cpp:117-120 | a concrete callback adding one timer without delay gets it fired in the same pass |
| TimerFlaws.SecondCancelFaults | src/TimerSched.cpp:135-160 | adding a timer and cancelling it twice reads its deleted entry |
| TimerFlaws.CallbackCancelsTwice | src/TimerSched.cpp:127-160 | every pass over a concrete state whose callback cancels another timer twice ends by reading a deleted entry |
| TimerRuns.RunKeeps | src/TimerSched.cpp:93-160 | over any run: ids in range, pending and cancelled ids disjoint, no id reissued, revived or un-cancelled, no pending timer altered |
| TimerRuns.Accounting | src/TimerSched.cpp:93-160 | in every reachable state each id ever issued is in exactly one place: pending, fired, or cancelled |
| TimerRuns.FiresAtMostOnce | src/TimerSched.cpp:121-131 | over a whole run no timer fires twice |
| TimerRuns.CancelledNeverFires | src/TimerSched.cpp:135-160 | once cancelled a timer never fires |
| TimerRuns.CancelIsSafe | src/TimerSched.cpp:137-159 | between the events of a run, cancelling reads deleted memory iff the id was issued, is not pending and never fired; for fired or unissued ids it changes nothing |
| TimerRuns.FiresAtFirstDuePass | src/TimerSched.cpp:106-133 | a pending timer nothing cancels is fired by the first pass whose clock reading reaches its expiry |
| TimerRuns.NeverEarly | src/TimerSched.cpp:111-116 | over a whole run no timer is fired by a pass that reads the clock before its expiry |
| TimerRuns.DelayIsKept | src/TimerSched.cpp:93-133 | a timer added with a delay at a clock reading is fired by no pass that reads less than their sum, and by the first that reads at least that iff no earlier callback of the pass cancels it, when nothing else does before |
| TimerRuns.CallbackDelayIsKept | src/TimerSched.cpp:93-133 | nor is a timer that a callback adds fired before its delay is over, by the same pass or by a later one |
| TimerClients.CancelsOnceIsSafe | src/TimerSched.cpp:93-160 | a client whose commands and callbacks together cancel no id at two places never makes CancelTimer read a deleted entry, in commands or in callbacks |
| TimerClients.IdsSufficeIsSafe | src/TimerSched.cpp:93-133 | a client that adds few enough timers, by a bound on pending timers and issued ids carried over its commands and passes, never overflows the id counter |
| TimerClients.RearmingIsLinear | src/TimerSched.cpp:93-133 | if callbacks add one timer at most, that bound is linear: never more pending than were added from outside, and each Update costs at most that many ids and one |
| TimerClients.StopHasReason | src/TimerSched.cpp:93-160 | a call that does not return has its reason in the client: an id cancelled at two places, more ids than the bound allows, or at that very Update the callback of a due timer that adds one already due, not with a positive delay |
| TimerClients.Drive | src/TimerSched.cpp:93-160 | for every sequence of calls on a new scheduler, with re-entrant callbacks, the heap implementation takes a run of the abstract model; all calls return if no id is cancelled at two places, ids suffice, and at each Update the callbacks of the timers then due add only timers expiring later; each condition rules out its own failure |
| TimerClients.PeriodicCompletes | src/TimerSched.cpp:93-133 | the client that re-arms one timer with any positive period, n times, meets all conditions of Drive |
| Compaction.RemoveIf | src/SelectPoller.cpp:161-165 | moving the kept elements down in place and cutting off the rest leaves exactly the kept elements in order |
| Compaction.KeptAt | src/SelectPoller.cpp:161-165 | a kept element ends up at the number of kept elements before it |
| SelectModel.Retire | src/SelectPoller.cpp:143-153 | exactly the first entry of a socket is marked dead |
| SelectReactor.SelectPoller.MarkRetired | src/SelectPoller.cpp:143-155 | the first entry of the socket is marked dead and the retired flag set, all else unchanged |
| SelectReactor.SelectPoller.RemoveRetired | src/SelectPoller.cpp:157-168 | compaction leaves exactly the live entries and clears the flag |
| SelectReactor.SelectPoller.DispatchAll | src/SelectPoller.cpp:107-131 | the three stages with the stale socket: equal to stages that re-read the entry, or a call on a null sink, and the latter only if the entry was retired midway; logs each call with the entry it is made on, and runs the timer calls of the handlers |
| SelectReactor.SelectPoller.Sweep | src/SelectPoller.cpp:104-132 | the loop visits every position, also those appended while it runs, makes exactly the calls of the sweep in order, and counts them; or it stops at a null sink or a faulting timer call |
| SelectReactor.SelectPoller.Poll | src/SelectPoller.cpp:75-140 | a poll whose handlers and callbacks mix socket and timer calls: a full sweep, an expiry pass over the timers the handlers left, the socket calls of the callbacks that ran, a compaction, and the number of calls; or exactly how it breaks off: null sink, faulting handler or callback, endless pass; every call logged is of the right method for a socket select() reported for that stage, and every entry so reported is in the log unless retired by its turn |
| SelectLaws.StepKeeps | src/SelectPoller.cpp:26-72 | every call by a client that registers once and sets interest on registered sockets keeps the registry consistent, and no FD_SET is dropped for lack of room |
| SelectLaws.StepDoes | src/SelectPoller.cpp:26-72 | what each registry call does to the vector and to membership in each of the three sets, as an iff |
| SelectLaws.WatchedAfter | src/SelectPoller.cpp:26-72 | after any script a socket is watched for reading, and for writing, iff the last of its calls that concern that set it, or it was watched and none concerns it |
| SelectLaws.AlwaysConsistent | src/SelectPoller.cpp:26-72 | over any run the exception set is exactly the registered sockets, read and write sets lie inside it, retired entries are flagged; after a poll none is left |
| SelectLaws.CallsAreLive | src/SelectPoller.cpp:105-132 | every call logged by the sweep is made on the entry then at its position, which is registered at that very moment and has a sink, for a socket that was watched for that stage when select ran, and is of the right method |
| SelectLaws.LogIsOrdered | src/SelectPoller.cpp:105-132 | calls are made in strictly increasing order of position and stage, so none is made twice |
| SelectLaws.WhoIsCalled | src/SelectPoller.cpp:105-132 | a call at a position of the original vector goes to the registration select saw; at a later one it goes to one made during the sweep, and that iff the one select saw of that socket was retired |
| SelectLaws.ReaddedIsCalled | src/SelectPoller.cpp:105-132 | a concrete sweep in which a socket removed and added again is called for readiness reported to the old registration |
| SelectLaws.ReadyAreCalled | src/SelectPoller.cpp:105-132 | an entry registered before the sweep is in the log for every stage it is ready for, unless retired before |
| SelectLaws.CallsAreReported | src/SelectPoller.cpp:105-132 | however handlers behave, each call of a sweep is OnWritable for a socket reported writable or OnReadable for one reported readable or in error |
| SelectLaws.ReportedAreCalled | src/SelectPoller.cpp:88-132 | a sweep takes place whenever anything is reported, and calls each entry for every stage its socket was reported for, unless it was retired before that stage |
| SelectLaws.SweepRunsHandlers | src/SelectPoller.cpp:105-132 | a sweep does to the registry what the handlers of the logged calls do, one after the other, and nothing else |
| SelectLaws.RemovedIsNotCalled | src/SelectPoller.cpp:105-132 | a socket not registered at some moment of the sweep is not called later unless a handler registers it anew |
| SelectLaws.CrashesExactly | src/SelectPoller.cpp:107-131 | a null sink is called iff a handler removes the socket it was called for while it is ready for a later stage |
| SelectLaws.SelfRemovalCrashes | src/SelectPoller.cpp:111-123 | a concrete sweep that calls a null sink |
| SelectLaws.TwiceRegisteredIsLost | src/SelectPoller.cpp:44-52 | registering a socket and removing it leaves it in none of the three sets, and a live entry of it iff it was registered before |
| SelectLaws.PollLeavesClean | src/SelectPoller.cpp:137-168 | after a poll the vector is the live entries and the flag is clear; the entry of position i is now at the number of live entries before it, so registration order is kept |
| SelectClients.PollHasReason | src/SelectPoller.cpp:75-140 | a poll of a client that registers properly breaks off only for a reason in its code: a handler that removes its own socket while it is ready for a later stage, a second cancel of a timer, or the callback of a due timer that adds one already due |
| SelectClients.PollAnswers | src/SelectPoller.cpp:75-140 | the log of a poll that returns is sound and complete for what select() reported, entries retired by their turn excepted |
| SelectClients.TimersAreAnswered | src/SelectPoller.cpp:133-135 | a registry call is made for the timers of a poll iff the callback of a timer with a sink that the poll fired makes it |
| SelectClients.RunEndsForReason | src/SelectPoller.cpp:26-168 | a run of a client that keeps its side ends, if a call does not return, for one of these reasons, provided the handlers of the last poll register properly too |
| SelectClients.Drive | src/SelectPoller.cpp:26-168 | for every sequence of calls and polls on a new poller each command does to the registry and to the inherited timers exactly what it asks for, in order: handlers' timer calls, expiry pass, callbacks' registry calls; the first that does not return breaks off as reported |
| SelectClients.PassIsReachedExactly | src/SelectPoller.cpp:80-93 | if select() fails only for empty sets, a poll that returns has run the expiry pass iff the vector was empty or held a registered socket |
| SelectClients.Starves | src/SelectPoller.cpp:80-93 | over any run without a registration from outside, once all entries are retired between two polls no poll does anything to the timers or drops an entry |
| SelectClients.StarvedAfterRemove | src/SelectPoller.cpp:44-52 | registering one socket and removing it again leads there |
| EventLaws.InterestAfter | src/AsyncEventPoller.cpp:75-141 | after any interest calls: read and accept bits iff readable mask, write and connect bits iff writable mask, close bit iff the last of all four calls was a Set |
| EventLaws.EntryHistory | src/AsyncEventPoller.cpp:75-141 | what the registry holds for a socket is the result of the interest calls made on that socket and no others |
| EventLaws.ResetOutLosesClose | src/AsyncEventPoller.cpp:126-141 | a concrete sequence that keeps polling for input but loses the close event |
| EventLaws.IndexMeansEntry | src/AsyncEventPoller.cpp:146-154 | index k of the collected handles stands for the k-th live entry |
| EventLaws.LookupFindsIt | src/AsyncEventPoller.cpp:186-187 | looking the k-th handle up finds the k-th live entry |
| EventLaws.LookupAfterTimers | src/AsyncEventPoller.cpp:176-192 | after timer callbacks the lookup finds the same registration iff none removed it, and otherwise nothing unless the handle was reissued |
| EventLaws.ReusedHandleMisleads | src/AsyncEventPoller.cpp:186-187 | a reissued handle leads the dispatch to another registration |
| EventLaws.LookupMisledExactly | src/AsyncEventPoller.cpp:176-192 | after timer callbacks the lookup yields another registration iff one removed the socket and one registered a socket under the handle, with room in the vector, that no later one removed |
| EventLaws.OneCallPerEvent | src/AsyncEventPoller.cpp:210-259 | with the mask test as written: one call per event that occurred, in the fixed order, on the entry as the handlers before left it, whatever the mask |
| EventLaws.DispatchIsRight | src/AsyncEventPoller.cpp:210-259 | OnReadable is called for FD_READ, FD_CLOSE and FD_ACCEPT and OnWritable for FD_WRITE and FD_CONNECT, once for each event that occurred and for no other, in that order, on the sink of the entry found; the last error is that of the last event; the registry is what the handlers called make of it in turn |
| EventLaws.MaskIsIgnoredExactly | src/AsyncEventPoller.cpp:210-259 | dispatch as written equals dispatch that obeys the mask iff every event that occurred is wanted by the mask the entry has at its turn |
| EventLaws.CalledWithoutInterest | src/AsyncEventPoller.cpp:210-259 | a socket polled both ways with a read and a write event, whose read handler stops polling for output: the write handler is called with a mask that no longer asks for it, and would not be if the mask were obeyed |
| EventLaws.CallsLiveExactly | src/AsyncEventPoller.cpp:210-259 | the k-th call is made on a live registration iff no earlier handler of the dispatch removed the socket |
| EventLaws.RemovedThenCalled | src/AsyncEventPoller.cpp:210-259 | a socket polled both ways with a read and a write event, whose read handler removes it: the second call is made on the retired entry |
| EventLaws.AlwaysConsistent | src/AsyncEventPoller.cpp:40-73 | over any run live sockets and handles are pairwise distinct, retired entries are flagged and have neither, at most 64 entries |
| EventHistory.EveryEntryHasHistory | src/AsyncEventPoller.cpp:75-141 | in every reachable state, across polls, dispatches and compactions, a registered socket's entry is that of its registration changed by just the interest calls made on the socket since |
| EventHistory.InterestAlways | src/AsyncEventPoller.cpp:75-141 | in every reachable state the mask and event bits of a registered socket follow the last call of their side since its registration, and the close bit the last call of all |
| EventLaws.IdleLeavesClean | src/AsyncEventPoller.cpp:206-207 | after an idle poll the vector is the live entries in registration order and the flag is clear |
| EventLaws.NothingLeaves | src/AsyncEventPoller.cpp:178-207 | over any run without an idle poll, entries keep their positions and retired ones stay in the vector |
| EventLaws.RefusedTooEarlyExactly | src/AsyncEventPoller.cpp:42-45 | AddFd is refused with fewer than 64 sockets registered iff the vector is full and holds a retired entry |
| EventLaws.FullOfRetired | src/AsyncEventPoller.cpp:40-73 | after 64 sockets have come and gone without an idle poll none is registered and AddFd is refused |
| EventReactor.AsyncEventPoller.CollectEvents | src/AsyncEventPoller.cpp:146-154 | the collected handles are those of the live entries in order |
| EventReactor.AsyncEventPoller.HandleEvents | src/AsyncEventPoller.cpp:210-259 | with the mask test executed as written: final registry, last error and calls made are those of the ordered dispatch, and the timer calls of the handlers are made in order, up to one that faults (see EventLaws.DispatchIsRight for what that dispatch calls) |
| EventReactor.AsyncEventPoller.Poll | src/AsyncEventPoller.cpp:143-208 | collects, runs an expiry pass whose callbacks mix timer and socket calls, looks up by handle and dispatches to one entry, or compacts, never both; or exactly how it breaks off: faulting callback or handler, endless pass |
| EventClients.PollHasReason | src/AsyncEventPoller.cpp:143-208 | a poll breaks off only for a reason in user code: a second cancel of a timer, in a callback or a handler, or the callback of a due timer that adds one already due |
| EventClients.TimersAreAnswered | src/AsyncEventPoller.cpp:176-177 | a registry call is made for the timers of a poll iff the callback of a timer with a sink that the poll fired makes it |
| EventClients.RunEndsForReason | src/AsyncEventPoller.cpp:40-208 | a run ends, if a call does not return, for one of these reasons |
| EventClients.Drive | src/AsyncEventPoller.cpp:40-208 | for every sequence of calls and polls on a new poller each command does to the registry and to the inherited timers exactly what it asks for, in order: expiry pass, callbacks' registry calls, handlers' timer calls; the first that does not return breaks off as reported |
| PortLaws.StepKeeps | src/CompletionPortService.cpp:29-57 | every permitted application call, setting flags and freeing being separate calls, is fault-free and keeps the lifetime invariant of all contexts |
| PortLaws.CompleteKeeps | src/CompletionPortService.cpp:112-145 | the kernel never completes an operation into a deleted context |
| PortLaws.ActKeeps | src/CompletionPortService.cpp:29-145 | whatever the application or the kernel does, also while a callback runs, faults nowhere and leaves every context freed before as it is |
| PortLaws.DequeueKeeps | src/CompletionPortService.cpp:147-184 | Run, with completions arriving at any point of the callback, touches no deleted context and deletes the dequeued one iff its operation succeeded and it has been freed, never another |
| PortLaws.DequeueDoes | src/CompletionPortService.cpp:153-183 | a turn that does not fault takes the head packet; a failed one changes nothing else; for a successful one all that the callback does is done, and its context is deleted on top iff a flag is then set |
| PortModel.ArrivalsAreQueued | src/CompletionPortService.cpp:147-153 | completions that arrive in the wait, in flight with their multiplicity and on no deleted context, leave the operations in flight and join the end of the queue in order and with their status |
| PortLaws.NoFaults | src/CompletionPortService.cpp:46-184 | over every interleaving of application, kernel and Run, completions arriving between any two calls of a callback, no context is deleted twice or touched after deletion |
| PortLaws.DeletedExactlyOnSuccess | src/CompletionPortService.cpp:171-182 | over a whole run: a context freed by state k is deleted in state n iff some Run in between served its successful completion |
| PortLaws.FailedCompletionLeaks | src/CompletionPortService.cpp:154-161 | a failed completion leaves its context undeleted with nothing outstanding |
| PortLaws.LeaksForEver | src/CompletionPortService.cpp:154-161 | a freed context with nothing outstanding is never deleted in any continuation |
| PortLaws.LeakIsReachable | src/CompletionPortService.cpp:46-161 | allocate, start, flag, free, failing completion, Run: in every continuation of this run the context stays undeleted |
| PortLaws.LeakIsPermitted | src/CompletionPortService.cpp:46-161 | those six events keep the protocol |
| PortLaws.CancelFlagDefersDelete | src/OverlapFd.h:11-16 | with FLAG_CANCEL_IO alone FreeOverlapCtx does not delete |
| PortLaws.FreeInOwnCallbackFaultsExactly | src/CompletionPortService.cpp:171-182 | for any callback that does not itself fault, Run reads the flags of a deleted context iff no flag was set and the callback frees the context before it sets one |
| PortLaws.RunDeletesExactly | src/CompletionPortService.cpp:171-182 | for any turn that does not fault, Run deletes the context of a successful packet iff a flag was or is set on it, freed or not; and with an operation outstanding iff the callback also started one |
| PortLaws.FreeInOwnCallbackFaults | src/CompletionPortService.cpp:174-178 | a callback that frees its own unflagged context makes Run read deleted memory |
| PortLaws.RearmAndFreeFaults | src/CompletionPortService.cpp:174-181 | starting an operation and lazily freeing inside the own callback deletes a context the kernel still writes to |
| PortLaws.FlaggedIsDeleted | src/CompletionPortService.cpp:178-181 | a context flagged but not freed is deleted, and freeing it later touches deleted memory |
| PortLaws.FaultsAreReachable | src/CompletionPortService.cpp:147-184 | from the start, three permitted events lead to a state in which these three callbacks go wrong |
| CompletionPort.CompletionPortService.Run | src/CompletionPortService.cpp:147-184 | timer callbacks, then a wait in which completions arrive and join the queue as they are, then the packet at its head if there is one: -1 for a failed port or operation, 0 for a timeout or a callback of that packet's context, with flag test and delete as in the protocol model |
| PortClients.Drive | src/CompletionPortService.cpp:29-184 | whatever client, callbacks and kernel do, a new service takes exactly the events its commands ask for, command by command, up to the first that faults, which is the next one asked for and the first to break the protocol |
| CompletionPort.CompletionPortService.FreeOverlapCtx | src/CompletionPortService.cpp:46-57 | invalidates the socket, cancels iff the cancel bit is set, deletes iff no flag bit is set |
| OverlappedModel.AlwaysConsistent | src/OverlappedIOService.cpp:34-62 | over any run each key is its context's own event, no filed context is deleted, the map has at most 64 entries, no deleted context is touched |
| OverlappedModel.ContextsDistinct | src/OverlappedIOService.cpp:41-51 | no two events lead to one context |
| OverlappedModel.AllocFiles | src/OverlappedIOService.cpp:34-52 | an allocation is refused iff 64 contexts are filed or there is no event; else one new context with the given socket is found under the given event, where none was, and no other changes |
| OverlappedModel.FreeUnfiles | src/OverlappedIOService.cpp:54-62 | freeing deletes the context, under its event none is found any more, and nothing else changes |
| OverlappedModel.AddedByScript | src/OverlappedIOService.cpp:34-62 | what a script has added and not freed has the socket and the event of one of its allocations and is found under that event |
| OverlappedModel.DispatchIsSafe | src/OverlappedIOService.cpp:181-207 | the context dispatched is still allocated whatever timer callbacks freed; it is the awaited one iff that was not freed, and none if it was, unless the handle was reissued |
| OverlappedModel.RanIsScript | src/OverlappedIOService.cpp:180-208 | a turn of Run does what the timer callbacks do and then what the callback of the context found does, that one iff the signalled event still leads to a context |
| OverlappedModel.RanDoes | src/OverlappedIOService.cpp:180-208 | after a turn a context is deleted iff it was, or a timer callback frees it, or a context is dispatched whose callback frees it; else it is unchanged and found under its event; under no event is a deleted one found |
| OverlappedService.OverlappedIOService.Run | src/OverlappedIOService.cpp:152-210 | collects the keys, runs timer callbacks, looks the signalled event up again and dispatches at most one context: one event of the model, with the context served and the return value |
| OverlappedClients.Drive | src/OverlappedIOService.cpp:34-210 | for every sequence of calls and turns a new service takes a run of the model, event by event, up to the first that touches a deleted context |

## Left out

- Calls of `Poll`, `Run` or `UpdateTimer` from inside a callback of the same object.
- The value of pointers: an entry or context is a Dafny object or a position in the order of allocation; sinks are numbers. `AsyncEventPoller` reserves room for 64 entries, so its entry pointer stays valid for the whole dispatch.
- `id`, `expire` and `sink` of a timer entry are constants in the model, as no code changes them after AddTimer.
- The order of timers with equal expiry, which the heap does not promise.
- What `CancelIoEx` does inside the kernel: the status of a completion is a parameter, so all outcomes are covered.
- `AsyncSelectPoller` and its hidden window: the same registry scheme driven by window messages.
- `SocketOpts`, `WsaExt`, `Common`, factories, destructors and `CleanUp`: socket plumbing and teardown.
- SelectReactor.SelectPoller.Apply: handlers are taken to ignore the return value of AddFd.
- EventReactor.AsyncEventPoller.Apply: handlers are taken to ignore the return value of AddFd.
- SelectReactor.SelectPoller.ExecuteTimers: makes the registry calls of timer callbacks after the expiry pass, in order, instead of between its turns; the two share no state.
- EventReactor.AsyncEventPoller.ExecuteTimers: makes the registry calls of timer callbacks after the expiry pass, in order, instead of between its turns; the two share no state.
- CompletionPort.CompletionPortService.Run: its timer callbacks are a script of calls on contexts, not an expiry pass over the inherited scheduler.
- OverlappedService.OverlappedIOService.Run: its timer callbacks are a script of calls on contexts, not an expiry pass over the inherited scheduler.
- CompletionPort.CompletionPortService.Async: covers AsyncConnect, AsyncAccept, AsyncRead and AsyncWrite as starting one operation; buffers, the accept socket and `udata` are not modelled.
- TimerClients.Drive: stops at the first call that faults or spins, as the program has no defined continuation; so do the other Drive methods.
- PortLaws.NoFaults: holds for clients that keep the protocol (one operation at a time, none after freeing, a flagged context freed before Run looks at it, only lazy free in the own callback); the lemmas after it say exactly what breaks otherwise.
