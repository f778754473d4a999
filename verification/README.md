# A verified model of the file server's core

This project models, in Dafny, the parts of the repository on which everything else stands, and
proves what they promise:

* the **timer tree** of the event library: the red-black tree of `net/evsys/tree.h` as
  `net/event.c` instantiates it (`EventTypes`, `RedBlack`, `RedBlackShape`, `EventTree`);
* the **tail queues** of `net/evsys/queue.h` (`TailQueue`);
* the **reactor**: the queues, flags and counters of `net/event.c` with the epoll back end of
  `net/epoll.c` (`ReactorState`, `Reactor`), the callbacks that it calls (`Callbacks`), and the read
  and write events that a session of `Session.cpp` keeps on it (`Session`);
* the **thread pool** and the start of a thread in `common/gthread` (`ThreadPool`, `ThreadStart`);
* the **file transfer**: the commands of a client (`Requests`), the byte format
  (`TransferFormat`), and sender, receiver and connection (`FileTransfer`);
* the **byte buffer** of `net/buffer.c` (`EvBuffer`).

`dafny verify dfyconfig.toml` checks the whole project.

## How the model is built

Objects that the source updates in place are classes with the source's fields, and loops are
loops. An arena stands for the memory of the events: an event is an address, and each field of
`struct event` is a map from addresses, because the source follows and rewrites the same fields
through many pointers. `EventTree` holds these maps together with the ghost sequence of the
nodes in order; every node knows its position and the positions around its subtree, so that
all links can be stated node by node. `RedBlack.Links` is the value of the tree, on which
rotations and repaintings are studied; a step and its mirror image share one lemma through
`Mirror`, which exchanges the sides.

The reactor is the class `EventBase`. `EventBase.B()` is its bookkeeping as a value; what each
method does is a function of that value, and the lemmas of `ReactorState.Base` say what these
functions keep. `EventBase.M()` adds the timeouts and the calls that are due. What a call inside a
callback, a callback, the calls of one event, the loop over a queue and a whole run may do is a
relation between such values in `Callbacks.Machine`; the methods of `EventBase` are proved to stay
within it, and its lemmas count the calls: how often each callback is called, and why. The queues of
the reactor are sequences that grow at the tail and lose one element at a time; `TailQueue` proves
that the linked queue with its pointers to the previous link behaves exactly so.

The two programs with several threads are step systems: a step goes from the moment a thread
obtains a mutex to its next blocking call or its next release of a mutex, and every order of
steps is allowed. Condition variables wake a waiting thread only when they are signalled.

In the file transfer a step is one `send`, one `recv`, one call of `writeBuffer` or the arrival
of a command, so that the stream can be split anywhere and the two ends can overlap in any
order. Cells are bytes that remember, for the proofs only, whether they belong to the file.

`event_error` only logs (`common/glog.h:110`), so the tests for "already on a queue" in
`net/event.c` stop nothing; the model has no such tests, and the proofs rest on the flag checks
of the callers.

Two statements are false of the code in general, and the model says exactly when they hold:

* `TaskFileRecv` reserves the chunk size and a command header for the receive buffer, but a FILES
  frame also holds the eight bytes of `FILE_GET`: files longer than the chunk size less eight
  bytes do not fit (`TransferFormat.CapacityReserved`, with `TransferFormat.OneMebibyte` as the
  example). `FileTransfer.Receiver.RoomForAll` and `FileTransfer.Overrun` show that the receiver
  asks for bytes beyond its memory exactly if some frame does not fit.
* The wait for the earliest timer is stored in an `int`: it is right exactly below 2^31
  milliseconds (`Reactor.IntWaitIsLeast` and `Reactor.WaitFits`, with `Reactor.LongWait` as the
  example).

A third condition is a requirement of the code on its callers: adding an event keeps the epoll
table right exactly if its directions of the descriptor are free
(`ReactorState.Base.AddedMirroredExactly`).

## Model

| member | source | states |
|---|---|---|
| EventTypes.TimevalArithmetic | net/config.h:22-53 | on normal time values the timer macros compare, add and subtract microseconds, and the results are normal |
| EventTypes.CompareTotalOrder | net/event.c:106-120 | `compare` is antisymmetric and transitive, and zero only for the same event |
| EventTypes.CompareMeans | net/event.c:106-120 | the earlier timeout comes first, and of equal ones the event at the lower address |
| EventTypes.CompareShifted | net/event.c:675-685 | moving two timeouts by the same offset leaves their comparison as it is |
| RedBlack.Links.RotateLinked | net/evsys/tree.h:335-374 | a rotation keeps all links consistent and the order of the nodes |
| RedBlack.Links.RecolorBalanced | net/evsys/tree.h:399-404 | with a red uncle, recolouring moves the only possible red-red edge to the grandparent and keeps all black counts |
| RedBlack.Links.InsertInner | net/evsys/tree.h:405-410 | turning an inner grandchild out keeps links and balance |
| RedBlack.Links.InsertOuter | net/evsys/tree.h:411-412 | the last rotation of an insertion removes the red-red edge |
| RedBlack.Links.InsertDone | net/evsys/tree.h:431 | with a black root the tree is valid |
| RedBlack.Links.AttachInserting | net/evsys/tree.h:592-602 | a red leaf in a free place gives consistent links with at most one red-red edge, at the new node |
| RedBlack.Links.UnlinkRemoving | net/evsys/tree.h:526-538 | taking out a node with at most one child leaves a tree that is short of one black node at most there |
| RedBlack.Links.RemoveRedSibling | net/evsys/tree.h:442-446 | a red sibling is turned above the parent, and the short side stays the only fault |
| RedBlack.Links.RemoveBlackSibling | net/evsys/tree.h:447-454 | with black nephews the missing black node moves up to the parent |
| RedBlack.Links.RemoveInnerNephew | net/evsys/tree.h:455-463 | a red inner nephew is turned to the outside |
| RedBlack.Links.RemoveOuterNephew | net/evsys/tree.h:464-470 | the last rotation of a removal supplies the missing black node |
| RedBlack.Links.RemoveDone | net/evsys/tree.h:506-507 | painting the node at which the loop stops leaves a valid tree |
| RedBlack.Links.SpliceRemoving | net/evsys/tree.h:519-557 | the successor in the place of the removed node leaves the tree valid, or short of one black node where the successor was |
| RedBlack.Links.SpliceOrder | net/evsys/tree.h:519-557 | afterwards the order is the old one without the removed node |
| RedBlackShape.UnfoldOrder | net/evsys/tree.h:309-312 | the tree that the links describe has the ghost order as its in-order sequence |
| RedBlackShape.ValidIsRedBlack | net/evsys/tree.h:46-54 | the local conditions on the nodes make it a red-black tree: black root, no red node with a red child, equal black counts |
| RedBlackShape.DepthBound | net/evsys/tree.h:46-54 | no path of a valid tree with n nodes is longer than 2 lg(n + 1) |
| EventTree.EventTree.RotateLeft | net/evsys/tree.h:335-353 | the assignments of RB_ROTATE_LEFT are the rotation of the links |
| EventTree.EventTree.RotateRight | net/evsys/tree.h:355-373 | the assignments of RB_ROTATE_RIGHT are the mirrored rotation |
| EventTree.EventTree.InsertColor | net/evsys/tree.h:390-432 | from a tree with one red-red edge at the new node the loop ends in a valid tree with the same order; its measure decreases |
| EventTree.EventTree.RemoveColor | net/evsys/tree.h:434-508 | from a tree short of one black node the loop ends in a valid tree with the same order; its measure decreases |
| EventTree.EventTree.Remove | net/evsys/tree.h:510-575 | RB_REMOVE leaves a valid search tree whose order is the old one without exactly that node |
| EventTree.EventTree.Insert | net/evsys/tree.h:577-606 | RB_INSERT puts the node at its ordered place and keeps all others, or finds the node in the tree and changes nothing, within 2 lg(n + 1) steps |
| EventTree.EventTree.Find | net/evsys/tree.h:608-624 | RB_FIND finds exactly the nodes of the tree, within 2 lg(n + 1) steps |
| EventTree.EventTree.Next | net/evsys/tree.h:626-645 | RB_NEXT is the next node in order, or NULL after the last |
| EventTree.EventTree.MinMax | net/evsys/tree.h:647-660 | RB_MIN and RB_MAX are the first and the last node in order, within 2 lg(n + 1) steps |
| EventTree.EventTree.TimeoutCorrect | net/event.c:675-685 | every timer is visited once and in order while the keys change; afterwards the tree is a valid search tree, every timeout is smaller by exactly the offset, and all are normal |
| EventTree.EventTree.CorrectedSorted | net/event.c:106-120 | rewriting all keys by one offset leaves the order sorted |
| TailQueue.TailQueue.InsertTail | net/evsys/queue.h:332-337 | through the last link, the element is appended to the sequence, and every back pointer is right |
| TailQueue.TailQueue.Remove | net/evsys/queue.h:356-363 | through its back pointer, exactly that element leaves the sequence, and every back pointer is right |
| TailQueue.TailQueue.Visit | net/evsys/queue.h:293-307 | walking from the first element by the next links meets the elements in their order |
| ReactorState.Base.RemovedQueued | net/event.c:711-749 | taking an event off a queue keeps "on a queue exactly once iff the flag is set" for every event and every queue |
| ReactorState.Base.RemovedCounted | net/event.c:720-731 | and both counters remain the numbers of memberships of events that are not internal |
| ReactorState.Base.InsertedQueued | net/event.c:751-796 | putting an event on a queue keeps flags and queues in agreement |
| ReactorState.Base.InsertedCounted | net/event.c:766-776 | and both counters |
| ReactorState.Base.AddedMirrored | net/epoll.c:261-307 | after epoll_add the table, the inserted events and the kernel's interest agree |
| ReactorState.Base.AddedMirroredExactly | net/epoll.c:295-305 | they agree if and only if the directions of the new event were free |
| ReactorState.Base.DeletedMirrored | net/epoll.c:309-358 | after epoll_del they agree, whether the entry keeps a direction or becomes empty |
| ReactorState.Base.DeletedValid | net/event.c:578-626 | after event_del the event is on no queue and in no entry of the table, and the bookkeeping is valid |
| ReactorState.Base.DeletedFieldsHold | net/event.c:602-620 | event_del takes the event off every queue and changes nothing else there |
| ReactorState.Base.ActivatedValid | net/event.c:628-641 | event_active keeps the bookkeeping valid |
| ReactorState.Base.EnrolledValid | net/event.c:562-573 | the descriptor or signal part of event_add keeps the bookkeeping valid |
| ReactorState.Base.InitialisedValid | net/event.c:441-456 | event_set of an event that is on no queue keeps the bookkeeping valid, counters included |
| ReactorState.Base.InternalValid | net/signal.c:109-111 | marking an event on no queue as internal keeps the counters right |
| ReactorState.Base.FiredFields | net/event.c:694-708 | a timer that fires is active and on no other queue, and its result is exactly EV_TIMEOUT |
| ReactorState.Base.ExpiredOne | net/event.c:694-708 | firing the earliest timer extends the fired ones by one; every other queue keeps its order |
| ReactorState.OfPriorityAscending | net/event.c:106-120 | the fired timers reach each active queue in the order of timeout and address |
| ReactorState.Base.DeliveredEvents | net/epoll.c:218-252 | readiness makes exactly the events of the reported directions active; a one-shot event is then on no other queue, a persistent one stays where it is, and the result collects the directions |
| Callbacks.DeliveredOnce | net/epoll.c:245-254 | an event that gets something is to be called once, a persistent one that is active already as often as before, and every other event as before |
| Callbacks.ServedQueues | net/epoll.c:245-254 | the event for reading joins the end of its active queue before the event for writing does, and a one-shot event leaves its old place first |
| ReactorState.RemainingAfter | net/event.c:243-246 | an event that leaves while a queue is processed leaves every queue as the original one without the events gone so far |
| ReactorState.CountAllPositive | net/event.c:231-241 | with a positive active count some active queue is not empty |
| Reactor.EventBase.EpollCtl | net/epoll.c:292-294 | which operations epoll_ctl accepts: ADD if absent, MOD and DEL if present |
| Reactor.EventBase.EpollAdd | net/epoll.c:261-307 | the operation chosen is accepted, and the event joins the table and the kernel's interest in its directions |
| Reactor.EventBase.EpollDel | net/epoll.c:309-358 | the operation chosen is accepted, and the event leaves the table and the kernel's interest |
| Reactor.EventBase.TreeInsert | net/event.c:784-788 | the event is not in the tree before, so that the assertion after RB_INSERT holds |
| Reactor.EventBase.QueueRemove | net/event.c:711-749 | one queue, one flag and the counters change as `Removed` says |
| Reactor.EventBase.QueueInsert | net/event.c:751-796 | one queue, one flag and the counters change as `InsertedInto` says |
| Reactor.EventBase.EventSet | net/event.c:441-456 | the event is on no queue before, and the bookkeeping is valid afterwards |
| Reactor.EventBase.EventAdd | net/event.c:512-576 | with and without a timeout: the old timeout and its activation are withdrawn, which ends the calls of the event if they are under way, the new one is now plus the interval, then the descriptor or the signal is registered; all invariants hold |
| Reactor.EventBase.EventDel | net/event.c:578-626 | the event is afterwards on no queue and in no table entry, and if its calls are under way no further one follows; all invariants hold |
| Reactor.EventBase.EventActive | net/event.c:628-641 | results of an active event add up and its number of calls stays; another event joins the end of its active queue, to be called as often as asked |
| Reactor.EventBase.EventPrioritySet | net/event.c:475-485 | an active event keeps its priority, a priority without a queue is refused, any other call sets it, and the bookkeeping stays valid |
| Reactor.EventBase.FireFirst | net/event.c:698-707 | the successor saved before the removal is the first timer afterwards |
| Reactor.EventBase.TimeoutProcess | net/event.c:687-709 | exactly the timers that are due leave the tree, the others keep their order; each due one is off all other queues and at the end of its active queue with result EV_TIMEOUT, to be called exactly once, and no other event's number of calls changes |
| Reactor.EventBase.FirstTimersAscend | net/event.c:694-708 | they fire in increasing order of timeout and address, on every priority |
| Reactor.EventBase.Deliver | net/epoll.c:218-256 | hang-up and error count as both directions; the state changes as `Delivered` says, and the calls due as `DeliveredDue` says |
| Reactor.EventBase.EpollDispatch | net/epoll.c:218-252 | the loop handles every reported descriptor in turn |
| Reactor.EventBase.Perform | net/event.c:441-626 | one call inside a callback has exactly its effect: event_set, event_add, event_del or event_priority_set on its event, and the end of the calls under way where one ends them |
| Callbacks.Machine.ActedContained | net/event.c:512-626 | such a call touches no other event, makes none active, takes at most its own event off the active queues, and only event_del and event_add with a timeout do that |
| Callbacks.Machine.AddedMeans | net/event.c:512-576 | after event_add with a timeout the event is in the tree for now plus the interval among the others as they were and not active because of an older timeout; unless it is active its descriptor is watched, or else its signal |
| Reactor.EventBase.FirstQueue | net/event.c:230-241 | the active queue that event_process_active picks exists and is the lowest that is not empty |
| Reactor.EventBase.ProcessActive | net/event.c:224-257 | the first queue is run until it is empty: each event at its head leaves it and its callback is called until no call is due, and the calls perform the script in its order, each action with its effect |
| Callbacks.Machine.TurnsExact | net/event.c:247-255 | every event that runs is called exactly as often as event_active said before the loop began; fewer calls come from its last call, which deletes or reschedules an event |
| Callbacks.Machine.TurnsDrain | net/event.c:243-246 | every event that runs was the first that had not left its queue, and all queues lose only events that ran or that a callback deleted or rescheduled |
| Callbacks.Machine.GentleTurns | net/event.c:243-255 | if no callback deletes or reschedules an event, the queue runs in its order, the other queues stay as they are, and the number of calls is the sum of the ncalls |
| Reactor.EventBase.RunCalls | net/event.c:247-255 | the callback is called with the counter decremented and stored each time, until the counter is zero |
| Callbacks.Machine.CalledBounded | net/event.c:249-255 | every call is one of those due, and fewer are made only if the last one breaks the loop |
| Callbacks.Machine.CalledCancels | net/event.c:599-604 | after a call that deletes its own event none follows, unless a call has set the event anew |
| Callbacks.Machine.RoundsCalls | net/event.c:363-368 | over several rounds of event_process_active no callback is called more often than event_active has said, and exactly so often if no call breaks a loop |
| Callbacks.Machine.AllCalled | net/event.c:363-368 | when no event that counts is active any more, every such event that was has been called exactly as often as asked, if no call breaks a loop |
| Reactor.EventBase.ProcessAll | net/event.c:303-371 | for any callbacks the passes of event_base_loop come to an end in which no event that counts is active |
| Reactor.EventBase.RunDue | net/event.c:361-368 | the callback of a timer that is due is called at most once, and exactly once if no call breaks a loop |
| Reactor.EventBase.TimeoutNext | net/event.c:643-673 | the wait is zero for a due timer, five seconds without a timer, the difference otherwise, and never negative |
| Reactor.WaitMeans | net/event.c:643-673 | in microseconds: five seconds without a timer, zero if the first one is due, else the time that is left |
| Reactor.EventBase.WaitOut | net/event.c:643-709 | after the wait computed, and after no shorter one, timeout_process fires a timer |
| Reactor.WaitIsLeast | net/epoll.c:201 | timeout_process fires a timer after that number of milliseconds and after no smaller number |
| Reactor.IntWaitIsLeast | net/epoll.c:201 | the int given to epoll_wait is the least wait until the first timer if and only if that wait is below 2^31 milliseconds |
| Reactor.WaitFits | net/epoll.c:201 | as an int the number of milliseconds is right if and only if it is below 2^31 |
| Reactor.LongWait | net/epoll.c:201 | a wait of fifty days becomes one of 704 milliseconds |
| Reactor.EventBase.ClockWentBack | net/event.c:332-342 | all timeouts move by the same amount and nothing else changes |
| Reactor.EventBase.Run | net/event.c:296-374 | over every sequence of additions, deletions, activations, reports, expirations and processing, queues, flags, counters, tree, table and kernel agree, and every step has had its effect |
| Callbacks.Machine.StepCalls | net/event.c:628-641 | in every step the calls made and still to come are no more than those to come before and those that the step asks for |
| Callbacks.Machine.RunCalls | net/event.c:628-641 | over every run a callback is called at most as often as timeouts, readiness and event_active have asked for |
| Session.DirectionFree | net/epoll.c:295-305 | an idle event of a session finds its direction of the descriptor free |
| Session.DeliveredFits | net/epoll.c:245-251 | readiness keeps the flags of a session in agreement with its events |
| Session.ExpiredFits | net/event.c:687-709 | expiring timers do not concern the events of a session |
| Session.Session.Arm | Session.cpp:254-294 | event_set is given an event that is on no queue, and afterwards the event waits in the table |
| Session.Session.AddReadEvent | Session.cpp:296-309 | a session that reads already is left as it is, another one reads afterwards |
| Session.Session.AddWriteEvent | Session.cpp:311-324 | the same for writing |
| Session.Session.OnRead | Session.cpp:340-381 | the session reads again, and writes if readBuffer has asked for it, or it is closed with both events on no queue and no event waiting for the descriptor |
| Session.Session.OnWrite | Session.cpp:383-403 | the write event is armed again if and only if writeBuffer asked for it |
| Session.Session.Dequeue | net/event.c:243-245 | a one-shot event is on no queue when its callback runs |
| Session.Session.Run | Session.cpp:242-403 | over every sequence of steps mReading and mWriting say exactly which event is on a queue while the session is open, and a session that has ended leaves no event waiting for its descriptor |
| Session.Serve | Session.cpp:340-381 | sessions follow each other on one descriptor number, perhaps in the same memory, and every one of them arms its events although the records of the earlier ones are still there |
| Requests.CommandBuffer.Take | Session.cpp:138-164 | header and body may arrive in any pieces; the command handed over is the one sent |
| Requests.Connection.Recv | Session.cpp:128-240 | a recv takes as many of the bytes as there are and as are asked for, into the sender's buffer if there is one, else into the session's; the connection is handed over exactly when the session has completed a request for an existing file, and ends exactly when it has completed one for a missing file |
| Requests.Connection.ReadBySession | Session.cpp:132-240 | the session reads the commands up to and including the first request for a file, and the sender all later ones |
| Requests.Connection.AllReceived | TaskFileSend.cpp:268-295 | at the end of the stream or of the connection exactly the commands up to the first one without a body, or for a missing file, have been read, in their order |
| TransferFormat.Le32RoundTrip | common/protocol.h:82-103 | a 32-bit field is read back as it was written |
| TransferFormat.Le32Bytes | common/protocol.h:82-103 | the lowest byte of a field comes first |
| TransferFormat.HeaderFields | common/protocol.h:82-89 | flag, command, index and length stand where the receiver reads them |
| TransferFormat.LoginFields | TaskFileSend.cpp:76-82 | LOGIN_RET holds the code 0, the size of FILE_INFO, the start 0 and the file length as the end |
| TransferFormat.FileFrameFields | TaskFileSend.cpp:125-150 | a FILES frame holds the flag, the command 3, its length, the position and length of its chunk, and that part of the file |
| TransferFormat.StreamPayload | TaskFileSend.cpp:108-150 | the file bytes in the frames from a position on are the rest of the file |
| TransferFormat.TilesFit | TaskFileSend.cpp:125-150 | every dwPos is the sum of the lengths before it, no chunk is empty or longer than the first, and the lengths add up to the file |
| TransferFormat.TileCount | TaskFileSend.cpp:125-127 | the number of chunks is the file length divided by the chunk size, rounded up |
| TransferFormat.CapacityNeeded | TaskFileRecv.cpp:199-206 | every frame fits if and only if the capacity is header, FILE_GET and longest chunk, and enough for LOGINRET |
| TransferFormat.CapacityReserved | TaskFileRecv.cpp:31 | with the capacity that the receiver reserves, every frame fits if and only if the file is at least eight bytes shorter than the chunk size |
| TransferFormat.OneMebibyte | TaskFileRecv.cpp:31 | a file of one chunk does not fit |
| FileTransfer.ProcBuffer.CreateMem | common/basedef.h:98-105 | memory is allocated once and kept |
| FileTransfer.SendView.SendingSplits | TaskFileSend.cpp:208-238 | whatever number of bytes a send takes, they are the next ones, and the rest remains to be sent |
| FileTransfer.Sender.SetFetchFile | TaskFileSend.cpp:54-91 | LOGINRET with the file length is what the stream begins with |
| FileTransfer.Sender.LoadChunk | TaskFileSend.cpp:125-150 | a FILES frame of the next chunk at its position, within the memory allocated for the first chunk |
| FileTransfer.Sender.WriteBuffer | TaskFileSend.cpp:110-162 | what remains to be sent is unchanged, a header is followed by its own data, and DATAEND comes with exactly the (2 * chunks + 1)-th call |
| FileTransfer.Sender.SendSome | TaskFileSend.cpp:177-238 | one send moves bytes from the front of what remains to the wire |
| FileTransfer.Sender.FuturePayload | TaskFileSend.cpp:138-146 | the file bytes still to be sent are those in the send buffer and the part not yet read |
| FileTransfer.Receiver.HeadDone | TaskFileRecv.cpp:141-180 | the header tells the length of the frame; a frame without a body ends the run, and it is DATAEND |
| FileTransfer.Receiver.UsePack | TaskFileRecv.cpp:206-249 | a FILES frame appends its chunk to the output, LOGINRET gives the file length |
| FileTransfer.Receiver.RecvSome | TaskFileRecv.cpp:132-264 | any part of the requested bytes keeps the receiver in step with the stream, inside its memory |
| FileTransfer.Receiver.RoomForAll | TaskFileRecv.cpp:199-206 | if every frame fits, no recv is asked for bytes beyond the memory |
| FileTransfer.Overrun | TaskFileRecv.cpp:31 | if some frame does not fit, the receiver comes to ask for bytes beyond its memory |
| FileTransfer.Transfer.Run | TaskFileRecv.cpp:132-264 | the invariants of both ends hold over every sequence of steps and every splitting |
| FileTransfer.Transfer.Conservation | TaskFileSend.cpp:108-162 | bytes written, in the receive buffer, on the wire, in the send buffer and not yet read always make up the file |
| FileTransfer.Transfer.Output | TaskFileRecv.cpp:214-222 | the output is always a prefix of the file, and the file when DATAEND has been read |
| FileTransfer.Transfer.Complete | TaskFileRecv.cpp:156-164 | when DATAEND has been sent and the wire is empty, the receiver has read it and has the file |
| FileTransfer.Transfer.Happen | TaskFileSend.cpp:108-238 | every step that is possible brings the transfer nearer to its end |
| FileTransfer.Transfer.SomeStep | TaskFileSend.cpp:297-342 | until DATAEND has been read some step is possible |
| FileTransfer.Transfer.Finish | TaskFileRecv.cpp:132-180 | from every reachable state the transfer can be completed, and then the output is the file |
| ThreadPool.InitialInv | common/gthread/gthreadpool.cpp:38-59 | the pool begins in the invariant |
| ThreadPool.StepKeeps | common/gthread/gthreadpool.cpp:69-232 | every step of every thread keeps the invariant |
| ThreadPool.ReachedInv | common/gthread/gthreadpool.cpp:69-232 | the invariant holds in every interleaving |
| ThreadPool.IdleAndBusy | common/gthread/gthreadpool.cpp:129-172 | before the shutdown, with the main mutex free, idle and busy threads are mTotal, at most mMaxThreads; the first mIndex entries are different idle threads and the rest are null |
| ThreadPool.SaveSucceeds | common/gthread/gthreadpool.cpp:211-232 | saveThread always finds room |
| ThreadPool.NeverFails | common/gthread/gthreadpool.cpp:189-196 | the path for a full list is never taken |
| ThreadPool.CalledOnce | common/gthread/gthreadpool.cpp:174-180 | no job is called twice, a refused one not at all |
| ThreadPool.ShutdownAfterJobs | common/gthread/gthreadpool.cpp:71-76 | when the destructor passes its first wait every accepted job has been called exactly once and has returned |
| ThreadPool.FreedUntouched | common/gthread/gthreadpool.cpp:91-97 | when records are freed their threads have ended and their mutexes are free |
| ThreadPool.AllFreed | common/gthread/gthreadpool.cpp:91-97 | the destructor frees every record and clears the list |
| ThreadPool.FreedOnce | common/gthread/gthreadpool.cpp:91-97 | no record is freed twice |
| ThreadPool.NoDeadlock | common/gthread/gthreadpool.cpp:122-209 | as long as dispatch or the destructor is under way some thread can move, despite the opposite lock orders |
| ThreadPool.AcceptedMoves | common/gthread/gthreadpool.cpp:174-180 | between two calls, too, the thread of an accepted job can move |
| ThreadPool.BusyAtRest | common/gthread/gthreadpool.cpp:174-209 | and every thread that is not on the list can move or waits for one that can |
| ThreadPool.StepAdvances | common/gthread/gthreadpool.cpp:122-209 | every step brings the call or a thread nearer to its end |
| ThreadPool.CallReturns | common/gthread/gthreadpool.cpp:122-172 | from every reachable state the call in progress can be completed |
| ThreadPool.DispatchDecides | common/gthread/gthreadpool.cpp:136-169 | dispatch gives the job to the last idle thread; without one it creates a thread for it, and it refuses the job exactly if that fails |
| ThreadPool.StepsOfJobs | common/gthread/gthreadpool.cpp:122-180 | in every step an accepted job stays with its thread or is called, and a job is refused only where no thread is idle and pthread_create fails |
| ThreadPool.RunJobs | common/gthread/gthreadpool.cpp:122-172 | in every run there are as many jobs as dispatches and at most as many threads as the constructor was given, and none is refused as long as pthread_create succeeds |
| ThreadPool.DispatchReturned | common/gthread/gthreadpool.cpp:122-172 | when dispatch has returned, its job is with a thread that can move, called once, or refused |
| ThreadPool.AcceptedJobRuns | common/gthread/gthreadpool.cpp:174-180 | from every reachable state in which a job has been accepted some steps lead to its one call |
| ThreadPool.Quiet | common/gthread/gthreadpool.cpp:174-209 | when no thread can move between two calls, every accepted job has been called and all threads wait on the list |
| ThreadStart.ReachedInv | common/gthread/gthread.cpp:83-114 | the mutexes and the flag agree with the places of both threads in every interleaving |
| ThreadStart.Handshake | common/gthread/gthread.cpp:157-185 | the body begins and `running` is cleared only after Start has seen it, and Start returns 0 only after ThreadStarted |
| ThreadStart.NoDeadlock | common/gthread/gthread.cpp:83-114 | inside Start one of the two threads can move, and while it polls the thread is held up by nothing but the poll itself |
| ThreadStart.StartReturns | common/gthread/gthread.cpp:47-114 | from every reachable state Start can return |
| ThreadStart.StartSucceeds | common/gthread/gthread.cpp:71-114 | in every interleaving a call of Start that finds no thread returns 0 if pthread_create succeeds, and reports a failure only if it fails |
| ThreadStart.StartRefuses | common/gthread/gthread.cpp:71-77 | while the thread is inside its body Start reports that it runs already, and creates none |
| EvBuffer.EvBuffer.Align | net/buffer.c:239-245 | the content moves to the front of the allocation unchanged |
| EvBuffer.EvBuffer.Enlarged | net/buffer.c:266-272 | the new size is 256 doubled some times, enough, and either 256 or less than twice the need |
| EvBuffer.EvBuffer.Expand | net/buffer.c:249-283 | room for the bytes is made and the content is unchanged |
| EvBuffer.EvBuffer.Add | net/buffer.c:285-303 | the bytes are appended |
| EvBuffer.EvBuffer.Drain | net/buffer.c:305-327 | the first bytes are dropped, all of them if there are no more |
| EvBuffer.EvBuffer.Remove | net/buffer.c:177-188 | the bytes returned and the rest are the old content |
| EvBuffer.EvBuffer.AddBuffer | net/buffer.c:92-127 | everything moves from one buffer to the end of the other, by either path |
| EvBuffer.EvBuffer.ReadLine | net/buffer.c:195-235 | without a terminator there is no line and nothing changes; otherwise the old content is the line, the longest terminator that stands there, and the new content |
| EvBuffer.LineSplits | net/buffer.c:201-232 | a content without a terminator is plain, and any other is a plain line, the longest terminator behind it and the rest |
| EvBuffer.ReadFirst | net/buffer.c:221-232 | with one kind of terminator throughout, the first line comes back as it was and the other lines remain |
| EvBuffer.RoundTrip | net/buffer.c:195-303 | lines added with one kind of terminator are read back exactly, and then there is neither a line nor a byte left |

## Left out

- TailQueue.TailQueue.InsertTail: the event base holds its queues as sequences; that the linked queue behaves as such a sequence is proved apart from it.
- Sockets, epoll_wait, gettimeofday, fread, fwrite and the clock are inputs of the methods; fread returns what it is asked for, and the file does not change during a transfer.
- Running out of memory, failing epoll_ctl calls for other reasons than the interest set, and the growth of the epoll table: descriptors lie inside the table.
- Delivery of signals (net/signal.c): only the signal queue and the internal event are modelled; an event is for a signal or for a descriptor, not for both.
- Callbacks are lists of event_set, event_add, event_del and event_priority_set, and do not call event_active; a call that the state does not allow (event_set of a queued event, event_add on a taken direction) is not made.
- Several event bases, event_base_set, event_once and event_pending.
- EVLIST_INIT is membership in the maps, EVLIST_INTERNAL a set of its own.
- The width of long is taken as 64 bits in the wait of epoll_dispatch; time values do not overflow.
- Reactor.EventBase.AbortLoop: ev_pncalls points to the counter of the event being run; that the address is out of date after that run is not modelled.
- ThreadPool.StepKeeps: one thread dispatches and then destroys the pool, jobs return and do not dispatch, and there are no spurious wake-ups, for which the source's waits have no loop; the pool is a step system on values, not a class.
- ThreadStart.Handshake: nobody calls Kill, and the body calls ThreadStarted once.
- FileTransfer.Sender.SendSome: a send that fails ends the run, so repeated sends after an error are not modelled; the queue of other commands (PING) is empty, as nothing fills it.
- FileTransfer.Transfer.DoStart: the control command is taken as already decoded and starts the sender once.
- Requests.CommandBuffer.Take: commands fit into the 1500 bytes of the buffers, as the code takes for granted. What a command asks for, and whether that file exists, is an input.
- Session.Session.OnRead: event_del of an event that event_set has never filled in is skipped, since its memory has no contents yet; this is always so for the timer event, because addTimerEvent is called nowhere. SessionManager is not part of this model.
- EvBuffer.EvBuffer.AddBuffer: a buffer is not added to itself, which would empty it. Callbacks on changes, printf-style additions, evbuffer_find, reading from and writing to descriptors and the overflow of sizes are not part of this model.
- Splay trees, the other lists of the BSD headers, JNI, logging, the Udp files and the command-line programs.
