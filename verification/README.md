# The widget framework's IPC and instance lifecycle, verified

This project models the machinery by which the parts of the widget framework talk to each
other, and proves what it is built to keep. Each module stands for one component:

| module | component |
|---|---|
| Bytes, Wire, Packets | the packet format: typed arguments marshalled behind alignment padding, a 72-byte header, replies |
| PacketBlock, PacketBody | writing the arguments into a block of memory that grows as they come |
| Reassembly | `service_cb`, which rebuilds packets from short reads, against a reference that cuts a byte string into frames |
| ReaderThread | the reader thread of a connection and the main thread, as interleaved atomic steps, and the code of the receiving side |
| EndToEnd | marshalling, both receive functions and the rebuilding put together |
| Requests | the list of requests that wait for their ACK or for the loss of their connection |
| RequestSteps, RequestRuns, RequestOutcomes | the functions on that list on values, what each callback is told and what is issued, and whole runs |
| RequestTables | the program, proved to do to its list what the functions do to values |
| Dlist, Disconnects | the doubly linked list on the heap, and nested closing of connections, which relies on it |
| Lifecycle, LifecycleOutcomes, Instances | a widget instance: the state machine over all runs, where each operation and answer leads, and the functions and callbacks of `instance.c`, each proved to make its transition |
| SlaveQueue, SlaveSteps | commands to slaves: where each one is, who refers to it, its callback; the functions of `slave_rpc.c` on values |
| SlaveOrder, SlaveLines, SlaveHandles, SlaveRuns | the order of each slave's commands, per function, when a handle arrives, and over whole runs |
| SlaveOutcomes, SlaveAttempts | where each request, answer and handle leaves a command, how commands end, and how often they are tried |
| SlaveRpc | the program, proved to do to its state what the functions do to values |
| ServiceDispatch, ServiceThreads | the service thread and its client threads, as interleaved atomic steps, and the code that takes them |
| EventPipe | the input thread, the event list and its pipe, as interleaved atomic steps |
| Gestures, TouchSteps | what a touch listener is told, and what each function tells it, on values |
| TouchCalls, TouchRuns | the calls and callbacks on all listeners and on the threads, on values, and whole runs |
| TouchOutcomes | what each call and each byte of the pipe comes to |
| TouchEvents | the program, proved to do to its listeners and threads what the functions do to values |
| FaultWindow | when a package counts as faulty |

Options, Sequences and Errors hold what several of them need.

State that the C code changes in place is a class here, with methods that follow its
functions. Where several threads share state, a run is any sequence of atomic statements of
those threads; the invariants are proved for every such run. Locks are atomic steps, pipes
are FIFO queues. What comes from outside, such as the data of a read, the answer of a slave
or the return value of a callback, is an argument or an arbitrary choice.

`dafny verify dfyconfig.toml` checks everything.

## What turned out to need a condition

- A packet under construction grows by a fixed amount while the field is written to where
  the block was before. Whatever the memory does, the packet holds its arguments if and only
  if they end before the first BUFSIZ bytes do, but for a field of zeros that ends just
  there (`PacketBody.HoldsArgsIffSafe`).
- Rebuilding a packet overwrites those bytes of its mask field that come with the first
  read. The packet arrives unchanged if and only if these bytes are those of the default
  mask (`Reassembly.MaskedIsIdentity`). The mask is written past a first piece if and only
  if that is shorter than the header (`Reassembly.PacketBuild`).
- The macro `dlist_remove_data` forgets the whole list when the data is not found, and the
  list functions stop at a NULL entry (`Dlist.RemoveDataKeepsTheRest`,
  `Dlist.CountIsLength`). The list of connections being closed keeps descriptors as
  pointers, so this happens with descriptor 0 and only with it
  (`Disconnects.RestoredUnlessZero`, `Disconnects.ClosesRightlyUnlessZero`).
- After a connection is lost, a request for it can stay behind unanswered: if and only if
  the entry that is last in the list when visited belongs to the connection, is not in use,
  and has a callback that issues an accepted request for it (`Requests.StaysBehind`,
  `Requests.LastEntryDecides`).
- Commands to one slave are handed over in issue order, unless an activation callback gets
  an ordinary request into the queue while an ordinary command waits for the handle
  (`SlaveHandles.Overtakes`). Over every run the order holds if and only if that never
  happens (`SlaveRuns.OrderlyUnlessOvertaken`, `SlaveRuns.ActivationRequestOvertakes`).
- EVENT_EXIT finds the event list empty, and the gestures are completed, if and only if the
  main thread has not sent an event while no input thread was running
  (`EventPipe.ExitFindsNothing`). It never has if the thread ends only when asked to
  (`EventPipe.AskedIsObedient`); once it has, no thread is started any more
  (`EventPipe.NeverStartedAgain`).
- A touch listener is refused as registered already also while the handler of the last
  thread is still installed (`TouchEvents.EventInfo.Activate`).
- `instance_state_reset` by itself leads out of DESTROYED; only the guards of its callers
  together prevent that (`Lifecycle.DestroyedIsForEver`).
- The fault window does not slide: bursts of up to twice the allowed number can pass
  (`FaultWindow.BurstIsReported`, `FaultWindow.SmallerBurstMayPass`). A report is within the
  detection time if time stamps do not decrease (`FaultWindow.ReportIsJustified`); otherwise
  it need not be (`FaultWindow.SteppedClockMisleads`).

## Model

| member | source | states |
|---|---|---|
| `Bytes.LittleEndianRoundTrip` | com-core/src/packet.c:279-324 | a number that fits its field comes back from its bytes, at every width |
| `Bytes.LittleEndianOnto` | com-core/src/packet.c:553-574 | every byte string is the encoding of exactly the number read from it |
| `Bytes.LeastFirst` | com-core/src/packet.c:279 | the least significant byte comes first, and a negative number is its two's complement |
| `Wire.AlignmentGap` | com-core/src/packet.c:315-318 | both loops compute the least padding that brings the offset to the alignment of the field |
| `Wire.KindNames` | com-core/src/packet.c:264-330 | which characters name which kind, in either case, and no others; the size and the alignment of each kind of field, a string ending with its NUL |
| `PacketBody.PacketBuffer.CheckAndExpand` | com-core/src/packet.c:238-255 | the block grows by BUFSIZ when the payload has reached its end, once, whatever is needed, and may move |
| `PacketBody.PacketBuffer.PutArg` | com-core/src/packet.c:262-330 | an argument is written behind its padding to where the payload was before the block grew: it is lost if the block has moved, and so is what lies behind the end of the block |
| `PacketBody.PacketBuffer.BodyFiller` | com-core/src/packet.c:257-345 | an invalid character, and nothing else, makes it fail; the packet is what the arguments and the memory make of it, and holds exactly the arguments, each aligned, if they are safe |
| `PacketBlock.HoldsIffSafe` | com-core/src/packet.c:238-330 | whatever `realloc` does, all fields are in the packet if and only if they end before BUFSIZ, or one that is nothing but zeros ends just there and the others before the block grows a second time |
| `PacketBody.HoldsIsMarshalled` | com-core/src/packet.c:544-582 | holding every field byte for byte at its place is the same as being read back as the arguments |
| `PacketBody.HoldsArgsIffSafe` | com-core/src/packet.c:238-345 | for all arguments: the packet holds them under every behaviour of the memory if and only if they are safe |
| `PacketBody.SafeRoundTrip` | com-core/src/packet.c:257-345 | what was written under a format reads back under it, whatever the memory did, if it is safe |
| `PacketBody.LongStringIsUnsafe` | com-core/src/packet.c:280-296 | one string alone is safe if and only if it is shorter than BUFSIZ - 1 |
| `Wire.MarshalledAppend` | com-core/src/packet.c:265-330 | appending a field behind its padding extends what the payload holds by that argument, whatever the padding bytes are |
| `Wire.StrLen` | com-core/src/packet.c:570-573 | the string read ends at the first NUL |
| `Wire.GetField` | com-core/src/packet.c:550-576 | one field, read where the reference reader reads it |
| `Wire.PacketGet` | com-core/src/packet.c:525-587 | the values of the reference reader are stored, their number or -EINVAL is returned, and outputs beyond them are untouched |
| `Wire.UnmarshalMarshalled` | com-core/src/packet.c:544-582 | a marshalled payload read under its own format, any prefix of it or any extension of it gives back exactly the shorter of the two, with no error |
| `Wire.RoundTrip` | com-core/src/packet.c:257-345 | what was written under a format reads back under it, a NULL string as the empty one |
| `Wire.MarshalledInjective` | com-core/src/packet.c:257-345 | two argument lists with the same payload read back the same |
| `Packets.HeaderRoundTrip` | com-core/src/packet.c:33-55 | a header comes back from the first 72 bytes of its frame |
| `Packets.FrameRoundTrip` | com-core/src/packet.c:193-236 | a frame announces its own length and contains header and payload unchanged |
| `Packets.CreatedIs` | com-core/src/packet.c:415-468 | a packet created for a command is read as that command, has no addresses and the default mask; it is refused if and only if the command is too long |
| `Packets.ReplyGoesBack` | com-core/src/packet.c:346-402 | a reply is an ACK with the number, version and command of its request and the default mask, addressed to where that came from; a reply to the reply is addressed as the request was |
| `Reassembly.SplitIsExact` | com-core/src/com-core_packet.c:387-542 | the reference cutting loses and invents nothing: its frames and its remainder make up the input |
| `Reassembly.SplitResumes` | com-core/src/com-core_packet.c:387-542 | cutting a stream in two portions is cutting it at once |
| `Reassembly.SplitOfStream` | com-core/src/com-core_packet.c:387-542 | any prefix of a stream of frames is cut into the first of them, the whole into all of them, and until then at least one and never too many bytes are asked for |
| `Reassembly.MaskedIsIdentity` | com-core/src/packet.c:660-662 | a packet is rebuilt unchanged if and only if the mask bytes of its first piece are those of the default mask |
| `Reassembly.PacketBuild` | com-core/src/packet.c:631-678 | the first piece with its mask reset, or the piece put in place at the offset; a first piece elsewhere is refused; bytes are written past the end exactly when a first piece is shorter than the header, and how many |
| `Reassembly.Receiver.Accept` | com-core/src/com-core_packet.c:433-450 | the partial packet is the prefix of the current frame with as many bytes as the offset says; the mask is written past the piece exactly when it is the first and shorter than a header |
| `Reassembly.Receiver.Advance` | com-core/src/com-core_packet.c:450-513 | the context is READY exactly when the frame is complete, and in BODY exactly when the header is |
| `Reassembly.Receiver.Deliver` | com-core/src/com-core_packet.c:526-541 | the packet is handed over as rebuilt and the context starts anew, unless the handler failed |
| `Reassembly.Receiver.Consume` | com-core/src/com-core_packet.c:426-541 | after every read the packets delivered are those the reference cuts out of all bytes received |
| `Reassembly.Receiver.ServiceCb` | com-core/src/com-core_packet.c:387-542 | the same for a whole call, with its error returns; a packet is delivered exactly when one completes |
| `ReaderThread.StepKeepsInv` | com-core/src/com-core_thread.c:209-442 | every statement of either thread keeps the invariant |
| `ReaderThread.RunKeepsInv` | com-core/src/com-core_thread.c:424-426 | in every interleaving there is one event byte for each chunk, TERM is last, and the bytes returned, copied and queued are the bytes produced |
| `ReaderThread.DrainedByteIsTerm` | com-core/src/com-core_thread.c:1094-1107 | a byte found without a chunk is TERM: the error branch is never taken |
| `ReaderThread.RemovedByteIsReady` | com-core/src/com-core_thread.c:209-226 | the byte read with a chunk is READY, or about to be written: TERM is not eaten and the read ends |
| `ReaderThread.NoLostWakeUp` | com-core/src/com-core_thread.c:232-260 | a chunk in the list has its wake-up in the pipe or about to be written |
| `ReaderThread.ProducedIsReceived` | com-core/src/com-core_thread.c:378-426 | what counts as produced is all that the reader thread has received, in order |
| `ReaderThread.ReturnedInOrder` | com-core/src/com-core_thread.c:1069-1126 | what was returned is always a prefix of what was produced, and all of it once TERM was read |
| `ReaderThread.ShortReturnIsTheEnd` | com-core/src/com-core_thread.c:1069-1126 | a call that breaks off has met the end of the stream |
| `ReaderThread.Tcb.ChunkAppend` | com-core/src/com-core_thread.c:237-241 | takes the step of the reader thread that queues a chunk |
| `ReaderThread.Tcb.Signal` | com-core/src/com-core_thread.c:243-260 | takes the step that writes its event byte |
| `ReaderThread.Tcb.End` | com-core/src/com-core_thread.c:433-441 | takes the step that writes TERM, once and after everything else, or the one that ends the thread |
| `ReaderThread.Tcb.WaitEvent` | com-core/src/com-core_thread.c:266-306 | 0 only with something to read, -EAGAIN exactly when interrupted, a timeout only with nothing to read |
| `ReaderThread.Tcb.ReadSignal` | com-core/src/com-core_thread.c:213-217 | the read of the pipe ends, with READY |
| `ReaderThread.Tcb.ChunkRemove` | com-core/src/com-core_thread.c:209-226 | byte and chunk go together and nothing of the stream is touched |
| `ReaderThread.Tcb.CopyChunk` | com-core/src/com-core_thread.c:1110-1123 | at least one byte is copied, never more than asked for, and the chunk is used up exactly when it is to be removed |
| `ReaderThread.Tcb.DrainByte` | com-core/src/com-core_thread.c:1094-1107 | without a chunk the byte consumed is TERM |
| `ReaderThread.Tcb.FindChunk` | com-core/src/com-core_thread.c:1071-1108 | a chunk to work on, at once if one is there; otherwise the end of the stream, another turn after an interruption, or a timeout, which only comes when nothing has been signalled |
| `ReaderThread.Tcb.RecvWithFd` | com-core/src/com-core_thread.c:1045-1127 | whatever the reader thread does meanwhile: exactly the next bytes of the stream, as many as asked for unless the stream has ended; all of them without fail if they are there when the call begins; it fails only by timing out with nothing signalled |
| `EndToEnd.DeliveredIsSent` | com-core/src/com-core_packet.c:387-542 | whatever part of a stream of packets has come in whatever pieces, the packets delivered are the first ones sent, byte for byte; all of the stream delivers all of them |
| `EndToEnd.FieldsArrive` | com-core/src/packet.c:525-587 | a delivered packet has the header and the arguments it was sent with |
| `EndToEnd.SafeArgumentsArrive` | com-core/src/packet.c:257-345 | a packet filled from safe arguments arrives with them, whatever the memory did while it was filled |
| `EndToEnd.Socket.RecvWithFd` | com-core/src/com-core.c:580-644 | a positive return is the number of the next bytes of the socket, which are returned in order; it fails only with what `select` or the last read has failed with, retries when those were interrupted, and breaks off only when the other side has closed or the time is over |
| `EndToEnd.ServeDirect` | com-core/src/com-core_packet.c:832-860 | a whole session over the direct receiver takes in exactly what was read from the socket, at least a byte each time, and delivers the packets sent, in order |
| `EndToEnd.ServeOnce` | com-core/src/com-core_thread.c:473-510 | one wake-up passes exactly what the reader thread produced on to the receive context: all that is wanted if it is there already, and nothing only if nothing has been signalled or the stream has ended |
| `EndToEnd.ServeThreaded` | com-core/src/com-core_packet.c:832-860 | a whole session over the reader thread does the same, and one that ends with the stream has delivered all of it |
| `Requests.FindRequest` | com-core/src/com-core_packet.c:111-123 | the first context of the connection with that sequence number |
| `Requests.ReplyFindsItsRequest` | com-core/src/packet.c:376-382 | an ACK made from a request finds that request's context if and only if no earlier context of the connection has its sequence number |
| `RequestTables.RequestTable.AsyncSend` | com-core/src/com-core_packet.c:544-580 | 0 exactly when a context stays behind, which is that of the request; every error leaves the list as it was |
| `RequestTables.RequestTable.Answer` | com-core/src/com-core_packet.c:256-261 | while a callback is told the reply its context is marked, and neither it nor anything it does takes the context away |
| `RequestTables.RequestTable.Remove` | com-core/src/com-core_packet.c:125-142 | the context of that request leaves the list, and it alone |
| `RequestTables.RequestTable.Visit` | com-core/src/com-core_packet.c:373-377 | an unused context of a lost connection: its callback is told, what that issues joins the list behind, and the context is gone |
| `RequestTables.RequestTable.CleanOne` | com-core/src/com-core_packet.c:362-378 | one turn of the clean-up loop: the context is told and removed or stays, what its callback issues joins the end, and the loop ends if the context was last in the list when looked at |
| `RequestTables.RequestTable.Disconnect` | com-core/src/com-core_packet.c:347-385 | the list afterwards as a function of list, connection and what the callbacks issue: exactly the contexts of other connections and those in use remain, in order; every other one of the connection is gone and its callback has been told so, once; an unused one is there if and only if the entry visited last asks again |
| `RequestRuns.DisconnectedList` | com-core/src/com-core_packet.c:360-378 | the loop makes of the list what the recursive description says |
| `RequestRuns.DisconnectedSpares` | com-core/src/com-core_packet.c:360-378 | a waiting request is gone afterwards if and only if it was for the lost connection and not in use |
| `Requests.StaysBehind` | com-core/src/com-core_packet.c:360-378 | an unused context of the lost connection stays behind if and only if the entry that is last in the list when visited belongs to it, is unused, and its callback issues an accepted request for it |
| `Requests.NoneStaysBehind` | com-core/src/com-core_packet.c:360-378 | in particular none does if no callback issues requests for the lost connection |
| `Requests.LastEntryDecides` | com-core/src/com-core_packet.c:363-378 | it does not depend on the callback called last: the same callback leaves a context behind or not, as an entry of another connection follows or not |
| `Requests.OnlyNewRemain` | com-core/src/com-core_packet.c:360-378 | whatever the callbacks issue, all contexts listed before are kept or removed as they ought to be |
| `RequestTables.RequestTable.Ack` | com-core/src/com-core_packet.c:246-264 | of each request issued before: the matching one has been given the reply and is gone, whatever its callback does; those of connections that callback closes have been told so and are gone; all others wait as before |
| `RequestRuns.ScriptSpares` | com-core/src/com-core_packet.c:252-260 | what a callback does takes away the waiting requests of the connections it closes, and no others |
| `RequestRuns.StepMoves` | com-core/src/com-core_packet.c:246-385 | the effect of any event on any request issued before it, exactly |
| `RequestOutcomes.IssueJoins` | com-core/src/com-core_packet.c:544-580 | a request joins the table without a word to anybody, and leaves its context at the end of the list if and only if it is accepted |
| `RequestOutcomes.IssueInRun` | com-core/src/com-core_packet.c:544-580 | over any run: a request issued by the program is recorded as the next, for good |
| `RequestOutcomes.IssueWithinRun` | com-core/src/com-core_packet.c:256-261 | so is one issued by the callback of a reply, in the event of that reply |
| `RequestOutcomes.LossIssues` | com-core/src/com-core_packet.c:360-378 | while a connection is lost, as many callbacks as are told so issue what they are meant to, in order, and nothing else is issued |
| `RequestRuns.ExactlyOnce` | com-core/src/com-core_packet.c:246-385 | over any run: a refused request has heard nothing; an accepted one with a callback nothing while its context is listed, and exactly one word from then on |
| `RequestRuns.GoneIsForGood` | com-core/src/com-core_packet.c:125-142 | a context that is gone stays so, and what its callback was told is never added to |
| `RequestRuns.AnsweredByItsReply` | com-core/src/com-core_packet.c:246-264 | a request whose reply came was given it, and nothing else ever |
| `RequestRuns.OnlyItsReply` | com-core/src/com-core_packet.c:246-264 | a callback was given a reply only if one came to its request |
| `RequestRuns.NoneOutlivesItsConnection` | com-core/src/com-core_packet.c:347-385 | once a connection is lost, by an event or inside a callback, every request accepted for it before is gone and its callback has been called exactly once |
| `RequestRuns.NoneOutlivesItsConnectionWithin` | com-core/src/com-core_packet.c:246-264 | the same when a callback closes the connection, also for requests that callback has issued itself before |
| `RequestTables.RequestTable.AnyRun` | com-core/src/com-core_packet.c:246-580 | the program over any events is the run on values, so that all of this holds of it |
| `Dlist.Append` | com-core/src/dlist.c:44-69 | append on the sequence of nodes; the assertion about the tail always holds |
| `Dlist.Prepend` | com-core/src/dlist.c:71-97 | prepend on the sequence of nodes; the branch that patches the tail is dead |
| `Dlist.Unlink` | com-core/src/dlist.c:106-128 | relinking takes the node out of the sequence and keeps all data |
| `Dlist.Remove` | com-core/src/dlist.c:99-128 | deletion of one node; a NULL list or node gives NULL and touches nothing |
| `Dlist.FindData` | com-core/src/dlist.c:130-142 | the first occurrence among the entries before any NULL one |
| `Dlist.Count` | com-core/src/dlist.c:159-171 | the number of entries before the first NULL one |
| `Dlist.Nth` | com-core/src/dlist.c:173-187 | indexing, NULL outside the list |
| `Dlist.CountIsLength` | com-core/src/dlist.c:159-171 | the count is the length if and only if no entry is NULL |
| `Dlist.RemoveData` | com-core/include/dlist.h:18-22 | the macro leaves a valid list of old nodes, described by its contents |
| `Dlist.RemoveDataKeepsTheRest` | com-core/include/dlist.h:18-22 | the macro removes one occurrence and keeps everything else if and only if there is a visible occurrence or nothing else to keep; otherwise the whole list is lost |
| `Dlist.AddThenRemove` | com-core/include/dlist.h:18-22 | removing what was just added gives the old list back |
| `Disconnects.Connections.DestroyHandle` | com-core/src/com-core.c:182-228 | the closings under way and the descriptors closed, after any nesting of callbacks that close connections |
| `Disconnects.ActiveIsNotClosed` | com-core/src/com-core.c:191-202 | a connection whose closing is under way is not closed by anybody meanwhile |
| `Disconnects.ClosedOnceAndLast` | com-core/src/com-core.c:773-780 | a closing closes its own connection exactly once, last |
| `Disconnects.ClosesWhatOught` | com-core/src/com-core.c:182-228 | without descriptor 0 the code does exactly that and restores its list, whatever the nesting |
| `Disconnects.RestoredUnlessZero` | com-core/src/com-core.c:204-227 | the list of closings under way is restored if and only if descriptor 0 is not reached or nothing was under way |
| `Disconnects.ClosesRightlyUnlessZero` | com-core/src/com-core.c:182-228 | within a callback: these closings and any one that follows close what they ought to if and only if descriptor 0 is not reached |
| `Disconnects.OutermostClosesRightlyUnlessZero` | com-core/src/com-core.c:182-228 | the same for any closing from outside whose callbacks close these and any one more |
| `Disconnects.ForgottenIsClosedTwice` | com-core/src/com-core.c:204-227 | after descriptor 0 a connection being closed can be closed a second time: a concrete nesting |
| `FaultWindow.PackageInfo.IsFaulted` | data-provider-master/src/package.c:688-707 | reports exactly one fault more than allowed within the window, and starts anew |
| `FaultWindow.CountsTheLatest` | data-provider-master/src/package.c:688-707 | the counter counts the latest faults, all of them within the window |
| `FaultWindow.AfterReport` | data-provider-master/src/package.c:698-703 | the window starts anew with a report: of the faults that follow within the detection time exactly the one that is one too many is reported |
| `FaultWindow.AfterPause` | data-provider-master/src/package.c:690-695 | it does too at a fault after a pause as long as the detection time, which counts as the first |
| `FaultWindow.ReportIsJustified` | data-provider-master/src/package.c:688-707 | behind each report are more faults than allowed, none counted for an earlier report, all within less than the detection time |
| `FaultWindow.ReportsArePaidFor` | data-provider-master/src/package.c:688-707 | each report costs one fault more than allowed of its own, with any clock |
| `FaultWindow.BurstIsReported` | data-provider-master/src/package.c:688-707 | of twice the allowed number plus one consecutive faults within the detection time one is reported |
| `FaultWindow.SmallerBurstMayPass` | data-provider-master/src/package.c:688-707 | one fault fewer may pass: the bound is exact |
| `FaultWindow.SteppedClockMisleads` | data-provider-master/src/package.c:690-695 | with a clock that steps back a report may join faults further apart than the detection time |
| `Lifecycle.StepKeepsInv` | data-provider-master/include/instance.h:17-90 | every operation, reply and event keeps the reference count, the request count and the protocol of states |
| `Lifecycle.RunKeepsInv` | data-provider-master/include/instance.h:17-90 | so they hold in every reachable state |
| `Lifecycle.ChangingCountsRequests` | data-provider-master/src/instance.c:1306-1311 | changing_state is the number of unanswered requests, 0 or 1; if 1, the state is DESTROYED or names that request |
| `Lifecycle.FreedWithTheLastHolder` | data-provider-master/src/instance.c:1157-1185 | the reference count is that of the holders, and the instance is freed exactly when DESTROYED and held by nobody |
| `Lifecycle.DestroyedIsForEver` | data-provider-master/src/instance.c:1912-1949 | no run leads out of DESTROYED, though instance_state_reset alone would |
| `Lifecycle.DestroyedOnce` | data-provider-master/src/instance.c:1686-1767 | no two steps of a run enter DESTROYED: the creation reference is dropped once |
| `Lifecycle.DestroyIsRemembered` | data-provider-master/src/instance.c:1696-1709 | after a destroy request no reply, loss or recovery makes the instance active again, unless activation is asked for |
| `Lifecycle.DestroyIsCarriedOut` | data-provider-master/src/instance.c:1187-1607 | with a slave that answers success, at most two answers then lead to DESTROYED |
| `Lifecycle.DestroyedIsFreed` | data-provider-master/src/instance.c:1167-1185 | a DESTROYED instance can always be freed by answers, leaving viewers and released holds alone |
| `LifecycleOutcomes.ActivationIsAsked` | data-provider-master/src/instance.c:1951-2091 | activation of an instance that is not loaded sends the request and makes ACTIVATED the goal |
| `LifecycleOutcomes.ActivationFails` | data-provider-master/src/instance.c:1951-2091 | it fails, with no request on its way, if the package is faulty, the slave cannot be launched or the request is refused |
| `LifecycleOutcomes.ActivationSucceeds` | data-provider-master/src/instance.c:1951-2091 | an error is returned if and only if it fails, and for a faulty package in any state |
| `LifecycleOutcomes.ActivationIsRemembered` | data-provider-master/src/instance.c:1956-1973 | with another request unanswered activation becomes the goal; loaded or DESTROYED, nothing happens |
| `LifecycleOutcomes.ActivationIsCarriedOut` | data-provider-master/src/instance.c:1187-1607 | to be ACTIVATED, with a slave that takes requests: the answer leads to ACTIVATED with no request unanswered, or after CMD_DELETE to CMD_RENEW, whose answer does |
| `LifecycleOutcomes.ActivationIsMadeKnown` | data-provider-master/src/instance.c:1536-1594 | with the answer to CMD_NEW every client that watches the category becomes a viewer, but the owner |
| `LifecycleOutcomes.FailureDestroys` | data-provider-master/src/instance.c:1222-1590 | an answer that is a failure leads to DESTROYED, and no viewer is left unless the instance was never created |
| `LifecycleOutcomes.NoAnswerChangesNothing` | data-provider-master/src/instance.c:1199-1220 | no answer, or one that cannot be read, or one for a DESTROYED instance, ends the request and changes nothing else |
| `LifecycleOutcomes.DestructionIsAsked` | data-provider-master/src/instance.c:1686-1767 | destroying a loaded instance sends CMD_DELETE; it is DESTROYED at once if its package goes and its slave has gone |
| `LifecycleOutcomes.DestructionElsewhere` | data-provider-master/src/instance.c:1696-1720 | one that is not loaded is DESTROYED at once, one with a request unanswered is to be |
| `LifecycleOutcomes.DestructionFollowsTheAnswer` | data-provider-master/src/instance.c:1375-1545 | destroyed before CMD_NEW or CMD_RENEW is answered: the answer sends CMD_DELETE |
| `LifecycleOutcomes.DestructionIsCarriedOut` | data-provider-master/src/instance.c:1222-1305 | the answer to CMD_DELETE then leads to DESTROYED, and whoever has known the instance loses it |
| `LifecycleOutcomes.ReloadComesBack` | data-provider-master/src/instance.c:1769-1838 | reloading a loaded instance: CMD_DELETE, CMD_RENEW, ACTIVATED, with all its viewers |
| `LifecycleOutcomes.ReloadElsewhere` | data-provider-master/src/instance.c:1769-1838 | reloading another creates it anew, or changes nothing while a request is unanswered |
| `LifecycleOutcomes.VanishedIsDestroyed` | data-provider-master/src/instance.c:3299-3336 | the slave reports the end: DESTROYED, whatever the state |
| `LifecycleOutcomes.LosingTheSlave` | data-provider-master/src/instance.c:3408-3480 | the slave is lost: DESTROYED if and only if that was the goal or the owner is gone; otherwise nothing changes |
| `LifecycleOutcomes.RecoveryComesBack` | data-provider-master/src/instance.c:3338-3403 | the slave is back: CMD_NEW for an instance that was never there, CMD_RENEW for one that was, and the answer leads to ACTIVATED |
| `LifecycleOutcomes.RecoveryElsewhere` | data-provider-master/src/instance.c:3338-3403 | one to be destroyed, or of a faulty package, is DESTROYED; with a request unanswered nothing happens |
| `LifecycleOutcomes.RecoveryFails` | data-provider-master/src/instance.c:3338-3403 | if the slave cannot be launched an instance that was never there is given up, one that was waits |
| `LifecycleOutcomes.ViewersComeAndGo` | data-provider-master/src/instance.c:3815-3854 | viewers come and go with a reference each, and the owner is none |
| `Instances.Instance.Ref` | data-provider-master/src/instance.c:1157-1165 | one reference more |
| `Instances.Instance.Unref` | data-provider-master/src/instance.c:1167-1185 | one fewer; freed with the last, nothing at zero |
| `Instances.Instance.AddClient` | data-provider-master/src/instance.c:3815-3842 | a viewer and its reference, except for the owner |
| `Instances.Instance.ViewerDeactivated` | data-provider-master/src/instance.c:261-294 | a lost viewer takes its reference along |
| `Instances.Instance.DelClient` | data-provider-master/src/instance.c:3844-3854 | the same when it leaves by itself |
| `Instances.Instance.BroadcastDeleted` | data-provider-master/src/instance.c:621-645 | no viewer remains, and just their references are gone |
| `Instances.Instance.BroadcastCreated` | data-provider-master/src/instance.c:512-598 | everybody who watches the category is a viewer, each once |
| `Instances.Instance.Request` | data-provider-master/src/instance.c:1762-1766 | a request taken over holds a reference and is counted, a refused one leaves neither |
| `Instances.Instance.Activate` | data-provider-master/src/instance.c:1951-2091 | the transition of the state machine; negative exactly when it fails |
| `Instances.Instance.DestroyInstance` | data-provider-master/src/instance.c:1686-1767 | the transition of the state machine for destroy; negative exactly when CMD_DELETE is due and refused |
| `Instances.Instance.ReloadInstance` | data-provider-master/src/instance.c:1769-1838 | the transition for reload, and the same of its result |
| `Instances.Instance.Destroyed` | data-provider-master/src/instance.c:3299-3333 | the transition when the slave reports the end |
| `Instances.Instance.RecoverState` | data-provider-master/src/instance.c:3338-3403 | the transition when the slave is back; 1 exactly when the instance is on its way to it again |
| `Instances.Instance.NeedsSlave` | data-provider-master/src/instance.c:3408-3480 | the transition when the slave is lost, and who needs it again |
| `Instances.Instance.Unloaded` | data-provider-master/src/instance.c:1222-1305 | the switch on the answer to CMD_DELETE; its default branch is dead |
| `Instances.Instance.DeactivateCb` | data-provider-master/src/instance.c:1187-1312 | the answer to CMD_DELETE makes the transition of the state machine, whose outcomes are proved for all answers |
| `Instances.Instance.ReactivateCb` | data-provider-master/src/instance.c:1314-1475 | the answer to CMD_RENEW makes the transition of the state machine, whose outcomes are proved for all answers |
| `Instances.Instance.ActivateCb` | data-provider-master/src/instance.c:1477-1607 | the answer to CMD_NEW makes the transition of the state machine, whose outcomes are proved for all answers |
| `Instances.Instance.Start` | data-provider-master/src/instance.c:1084-1094 | a new instance waits for its first answer, or is gone at once |
| `SlaveQueue.EnqueueKeeps` | data-provider-master/src/slave_rpc.c:259-289 | queueing keeps: one place per command, references, attempts, callbacks, timer armed |
| `SlaveQueue.PullKeeps` | data-provider-master/src/slave_rpc.c:303-345 | taking a command out of the middle keeps them |
| `SlaveQueue.DestroyKeeps` | data-provider-master/src/slave_rpc.c:106-112 | destroying gives back exactly the references of the command |
| `SlaveOrder.Overtaking` | data-provider-master/src/slave_rpc.c:542-582 | later numbers put before waiting ones break the order if and only if there are both |
| `SlaveOrder.HandedInIssueOrder` | data-provider-master/src/slave_rpc.c:174-257 | of two ordinary commands of a slave the one handed over first was issued first |
| `SlaveRpc.Dispatcher.CreateCommand` | data-provider-master/src/slave_rpc.c:80-104 | a fresh command with its references and three attempts |
| `SlaveRpc.Dispatcher.DestroyCommand` | data-provider-master/src/slave_rpc.c:106-112 | its references are given back, once |
| `SlaveRpc.Dispatcher.PushCommand` | data-provider-master/src/slave_rpc.c:259-289 | queued in front or behind with the timer armed, or destroyed because no timer can be had |
| `SlaveRpc.Dispatcher.PopCommand` | data-provider-master/src/slave_rpc.c:114-125 | the first command leaves the queue |
| `SlaveRpc.Dispatcher.Dispatch` | data-provider-master/src/slave_rpc.c:405-449 | queued, waiting for a handle, or refused, with the matching return value |
| `SlaveRpc.Dispatcher.Request` | data-provider-master/src/slave_rpc.c:384-506 | the same for a whole request; nothing else moves |
| `SlaveSteps.AskedSettles` | data-provider-master/src/slave_rpc.c:384-506 | a request creates its command and puts it in the one place that handle, launch and timer ask for; every list grows by it or not at all |
| `SlaveOutcomes.AskedAllIssues` | data-provider-master/src/slave_rpc.c:384-506 | of any requests one after the other each makes its command, in order |
| `SlaveOutcomes.AskedAllPlaces` | data-provider-master/src/slave_rpc.c:384-506 | and each is where a request belongs, told from the state before all of them |
| `SlaveOutcomes.VerdictTells` | data-provider-master/src/slave_rpc.c:405-449 | a request returns an error if and only if it is refused |
| `SlaveRpc.Dispatcher.Consume` | data-provider-master/src/slave_rpc.c:174-257 | one tick does what it does on values, and the timer is given up exactly when nothing is queued |
| `SlaveLines.TickedConsumes` | data-provider-master/src/slave_rpc.c:174-257 | of one tick: the first command is handed over, refused, tried again in front with one attempt fewer or given up with the last of three; nothing else moves |
| `SlaveRpc.Dispatcher.SendAgain` | data-provider-master/src/slave_rpc.c:240-248 | back in front with one attempt fewer, or discarded with the last |
| `SlaveRpc.Dispatcher.Reply` | data-provider-master/src/slave_rpc.c:127-172 | the callback runs once more if there is one, each request it issues is made in order, the command is gone as answered, and no other command moves |
| `SlaveOutcomes.RepliedIs` | data-provider-master/src/slave_rpc.c:127-172 | the same of every answer: called, gone as answered, all requests made, nothing else moved |
| `SlaveOutcomes.RepliedPlaces` | data-provider-master/src/slave_rpc.c:155-167 | each request of the callback is where a request belongs: refused, waiting, queued, or gone for want of a timer |
| `SlaveLines.RepliedKeepsOrder` | data-provider-master/src/slave_rpc.c:127-172 | an answer upsets no order, whatever its callback issues |
| `SlaveRpc.Dispatcher.FlushAll` | data-provider-master/src/slave_rpc.c:542-582 | everything that waited is queued in its order, purged, or destroyed for want of a timer |
| `SlaveRpc.Dispatcher.UpdateHandle` | data-provider-master/src/slave_rpc.c:508-585 | a slave gets its handle, its activation callbacks issue requests and what waited is flushed; the order of its ordinary commands survives if and only if no request overtakes, which is told from the state before the call |
| `SlaveHandles.ConnectedOrder` | data-provider-master/src/slave_rpc.c:508-585 | that condition, exactly: the handle is not negative, an ordinary request for the slave among those of the callbacks stays in the queue, with the timer armed or once enough attempts at it have failed, and an ordinary command that is not purged waits |
| `SlaveHandles.ConnectedPlaces` | data-provider-master/src/slave_rpc.c:508-585 | where each command is afterwards: those that waited are queued, purged, or gone for want of a timer, all others where they were |
| `SlaveOutcomes.ConnectedIssues` | data-provider-master/src/slave_rpc.c:508-540 | the requests of the activation callbacks are made, and with the handle they need not wait |
| `SlaveOutcomes.AttachedIs` | data-provider-master/src/slave_rpc.c:588-611 | a slave that becomes known has no handle and nothing waiting; a known one stays as it is |
| `SlaveHandles.AskedAllJoins` | data-provider-master/src/slave_rpc.c:384-506 | which requests of the callbacks join the queue of a slave with a handle, by the state before and the number of failing timers |
| `SlaveHandles.ConnectedKeepsOrder` | data-provider-master/src/slave_rpc.c:508-585 | no other slave is concerned |
| `SlaveRpc.Dispatcher.Deactivate` | data-provider-master/src/slave_rpc.c:291-348 | does what it does on values; an unknown slave is an error |
| `SlaveLines.DiedEmpties` | data-provider-master/src/slave_rpc.c:291-348 | everything waiting, or everything queued, for the slave is answered with nothing, nothing of it is left there, and nothing else moves |
| `SlaveLines.AskedKeepsOrder` | data-provider-master/src/slave_rpc.c:434-447 | a request upsets no slave's order |
| `SlaveLines.TickedKeepsOrder` | data-provider-master/src/slave_rpc.c:174-257 | neither does a tick, with or without retries |
| `SlaveRuns.ActivationRequestOvertakes` | data-provider-master/src/slave_rpc.c:542-582 | an ordinary request of an activation callback overtakes a waiting one: a concrete run |
| `SlaveRuns.StepIsOrderly` | data-provider-master/src/slave_rpc.c:80-611 | one event leaves every slave's commands in order if and only if no activation callback overtakes |
| `SlaveRuns.OrderlyUnlessOvertaken` | data-provider-master/src/slave_rpc.c:80-611 | over every run: all states are in order if and only if no activation callback ever overtakes |
| `SlaveRuns.HandedOverInOrder` | data-provider-master/src/slave_rpc.c:174-257 | if activation callbacks issue only urgent requests for the slave just activated, any two ordinary commands handed over to one slave were issued in that order, over every run |
| `SlaveRpc.Dispatcher.AnyRun` | data-provider-master/src/slave_rpc.c:80-611 | the program over any events is the run on values, so that all of this holds of it |
| `SlaveRuns.ExactlyOnePlace` | data-provider-master/src/slave_rpc.c:80-112 | between two events of any run a command is in exactly one place and holds its packet until destroyed, every slave is referred to once by each of its live commands, and a queue has its timer |
| `SlaveOutcomes.FatesFitOverRuns` | data-provider-master/src/slave_rpc.c:127-257 | over any run only commands that need no answer end as sent, a command handed over that needs one has had it or waits for it, and only commands that create an instance are purged |
| `SlaveOutcomes.CallbackAtMostOnce` | data-provider-master/src/slave_rpc.c:127-172 | over any run its callback has run once if it was answered and never otherwise; if it is gone without, it needed no answer, ran out of attempts, found no timer, or was purged and would have created an instance |
| `SlaveAttempts.ThreeAttempts` | data-provider-master/src/slave_rpc.c:228-248 | over any run a command is given up if and only if com-core has refused it three times |
| `ServiceDispatch.StepKeepsInv` | data-provider-master/src/service_common.c:116-883 | every statement of every thread keeps the invariant |
| `ServiceDispatch.RunKeepsInv` | data-provider-master/src/service_common.c:116-883 | so it holds in every interleaving |
| `ServiceDispatch.ByteFindsPacket` | data-provider-master/src/service_common.c:767-778 | an event byte read always finds a packet |
| `ServiceDispatch.PacketHasByte` | data-provider-master/src/service_common.c:326-345 | no packet waits without an event byte there or about to be written |
| `ServiceDispatch.HandlerGetsLiveTcb` | data-provider-master/src/service_common.c:779-792 | the handler is given the TCB of the packet's client, which exists, or none; none only if the client has ended or the packet comes from outside |
| `ServiceDispatch.PoppedTcb` | data-provider-master/src/service_common.c:335 | a packet taken from the list has the TCB of its client as long as that is running, and none if it has ended or there is none |
| `ServiceDispatch.ClosedOnce` | data-provider-master/src/service_common.c:838-850 | over any run the handler is told of the end of each client exactly once, just before that is destroyed, and is never given its TCB after |
| `ServiceDispatch.ReceivedIsPosted` | data-provider-master/src/service_common.c:326-345 | what counts as received is all that a thread has posted, in order |
| `ServiceDispatch.DispatchedInOrder` | data-provider-master/src/service_common.c:757-851 | each packet is dispatched once, in the order of its client: dispatched, in the handler and queued make up received |
| `ServiceDispatch.NothingToFlush` | data-provider-master/src/service_common.c:818-843 | no packet is ever collected for an ended client |
| `ServiceDispatch.DestroysUnreferenced` | data-provider-master/src/service_common.c:568-620 | a TCB about to be destroyed exists and no queued packet refers to it |
| `ServiceDispatch.DestroyedForGood` | data-provider-master/src/service_common.c:568-620 | a destroyed TCB never exists again |
| `ServiceDispatch.DestroyedOnce` | data-provider-master/src/service_common.c:568-620 | no two steps of a run destroy the same TCB |
| `ServiceDispatch.EverythingIsServed` | data-provider-master/src/service_common.c:757-851 | the server left to itself takes a bounded number of steps, in whatever order; when it blocks, every client that had ended is destroyed, no packet waits but one for each thread still to send its byte, and without such threads everything received has been dispatched |
| `ServiceDispatch.ServerGetsThere` | data-provider-master/src/service_common.c:757-851 | from any reachable state it does get to block |
| `ServiceThreads.ServiceContext.ResetPointers` | data-provider-master/src/service_common.c:358-365 | takes the step that ends a client thread's references: none is left in the list |
| `ServiceThreads.ServiceContext.TakeOut` | data-provider-master/src/service_common.c:818-828 | the loop over the list separates the packets of a TCB from the others, both in order |
| `ServiceThreads.ServiceContext.CollectTcb` | data-provider-master/src/service_common.c:805-828 | takes the step that announces an ended client |
| `ServiceThreads.ServiceContext.Interleaved` | data-provider-master/src/service_common.c:116-883 | the statements of all threads, run in any interleaving, make the run of the state machine: its invariant holds and the flushing branch is never entered |
| `Gestures.HistoryIsGesture` | data-provider-master/src/event.c:762-877 | after any events and deactivations with any time stamps a listener has been told DOWN MOVE* or nothing, previous state ACTIVATE means DOWN is still due, and clear_listener would complete it |
| `Gestures.ClosingCompletes` | data-provider-master/src/event.c:611-670 | what clear_listener adds makes the gesture complete |
| `TouchSteps.TouchedKeeps` | data-provider-master/src/event.c:762-877 | one event and one listener: what it was told is added to as its history asks for, and if it goes it has been told the rest, or part of it when its callback refused |
| `TouchSteps.ClearedCloses` | data-provider-master/src/event.c:611-670 | clear_listener tells exactly what is due, or a beginning of it when the callback refuses |
| `TouchCalls.LeavingIs` | data-provider-master/src/event.c:1104-1119 | exactly the active listeners that are meant leave, and nothing else about anybody changes |
| `TouchRuns.WholeGestures` | data-provider-master/src/event.c:703-1149 | over any run of calls, events and thread steps, whatever the callbacks answer: every listener ever registered has been told what its own history asks for while listed, a complete DOWN MOVE* UP once it is in no list unless its callback refused, and nothing while it waits or when it was told ERROR |
| `TouchRuns.NothingIsUnsaid` | data-provider-master/src/event.c:703-1149 | over any run what a listener was told is only added to, and not at all once it has gone |
| `TouchRuns.EveryoneIsKnown` | data-provider-master/src/event.c:1030-1087 | every successful registration of a run has a listener of its own with that callback and slot |
| `TouchRuns.EventIsSeen` | data-provider-master/src/event.c:756-881 | over any run: an event is seen by every listener of its slot as its state asks for, with the time of the event if events keep theirs, and by no other |
| `TouchRuns.ExitCompletes` | data-provider-master/src/event.c:725-753 | over any run: EVENT_EXIT ends every gesture and lists those who waited if and only if no event has been sent late |
| `TouchOutcomes.ActiveListens` | data-provider-master/src/event.c:762-800 | an active listener is told every event not older than itself, DOWN first and MOVE from then on, and goes if its callback refuses |
| `TouchOutcomes.LeavingListens` | data-provider-master/src/event.c:801-868 | one that is leaving is told every later event, and the rest of its gesture once it is marked |
| `TouchOutcomes.HeardInTurn` | data-provider-master/src/event.c:756-881 | the next listener sees the time stamp that the one before has left |
| `TouchOutcomes.ClearedAccepts` | data-provider-master/src/event.c:611-670 | a cleared listener whose callback accepts has seen a complete gesture |
| `TouchOutcomes.ActivatingLists` | data-provider-master/src/event.c:1030-1087 | a new listener is in the list with the thread running, or waits because events are listed for a thread that was stopped |
| `TouchOutcomes.ActivatingFails` | data-provider-master/src/event.c:1030-1087 | it fails, and changes nothing, if and only if the listener is registered already, or a thread is needed and the old handler is there or the new thread cannot be made |
| `TouchOutcomes.DeactivatingLeaves` | data-provider-master/src/event.c:1104-1119 | those meant are not active any more and have been told nothing yet; all others are as they were |
| `TouchOutcomes.DeactivatingStops` | data-provider-master/src/event.c:1121-1149 | with the last active listener the thread is stopped and has ended; while one stays active the event is listed and its byte sent, and the last that left is marked |
| `TouchOutcomes.DeactivatingFails` | data-provider-master/src/event.c:1121-1125 | if nobody active is meant nothing changes |
| `TouchOutcomes.ReadingTakes` | data-provider-master/src/event.c:703-760 | each byte takes the event listed first with it |
| `TouchOutcomes.ExitRestarts` | data-provider-master/src/event.c:725-753 | after EVENT_EXIT the handler and the thread are there if and only if somebody waited and the thread could be started |
| `TouchOutcomes.ExitDrops` | data-provider-master/src/event.c:730-750 | those who waited are told ERROR if and only if it could not, and are listed if and only if it could |
| `TouchEvents.EventInfo.Invoke` | data-provider-master/src/event.c:585-609 | the listener is told its state; a negative answer removes it; without their own time events get that of the call |
| `TouchEvents.EventInfo.ClearListener` | data-provider-master/src/event.c:611-670 | does what it does on values, ends from every state and removes the listener, though one branch steps back |
| `TouchEvents.EventInfo.ClearAll` | data-provider-master/src/event.c:672-688 | does to all listeners, in order, what clearing does on values |
| `TouchEvents.EventInfo.OnItem` | data-provider-master/src/event.c:762-877 | the switch for one listener does what it does on values: told, passed over, or cleared |
| `TouchEvents.EventInfo.OnEvent` | data-provider-master/src/event.c:756-881 | the loop over the listeners does what it does on values, handing time stamp and answers on |
| `TouchEvents.EventInfo.StartThread` | data-provider-master/src/event.c:967-998 | refused while the handler of the last thread is installed; otherwise one step of the threads, or the error of what failed |
| `TouchEvents.EventInfo.Activate` | data-provider-master/src/event.c:1030-1087 | ALREADY_EXIST for a registration already listed, and while the handler of the last thread is still installed with no event listed; otherwise a fresh listener joins the list or, while stopped with events listed, those waiting; a failure changes nothing |
| `TouchEvents.EventInfo.DeactivateThread` | data-provider-master/src/event.c:1000-1025 | the thread is asked to stop, does what it does meanwhile, and has ended |
| `TouchEvents.EventInfo.PushEventItem` | data-provider-master/src/event.c:152-183 | an event is listed and its byte sent, with any steps of the input thread between the two |
| `TouchEvents.EventInfo.Deactivate` | data-provider-master/src/event.c:1096-1149 | NOT_EXIST exactly when nobody active is meant, and nothing changes then; with an active listener left the event has been listed and its byte sent; otherwise the thread is stopped and has ended |
| `TouchEvents.EventInfo.EventReadCb` | data-provider-master/src/event.c:703-882 | one byte does what it does on values; at EVENT_EXIT with no event sent late every gesture is completed |
| `TouchEvents.EventInfo.Restart` | data-provider-master/src/event.c:730-750 | those who asked meanwhile are listed, or told ERROR and dropped if their thread cannot be started |
| `TouchEvents.EventInfo.AnyRun` | data-provider-master/src/event.c:703-1149 | the program over any calls is the run on values, so that all of this holds of its listeners |
| `EventPipe.RunKeepsInv` | data-provider-master/src/event.c:152-1025 | in every interleaving of input thread and main thread there is one byte for each event, EXIT is the last byte of its thread, and the handler is doomed exactly when an event has been sent late |
| `EventPipe.ExitFindsNothing` | data-provider-master/src/event.c:725-753 | EVENT_EXIT finds the event list empty if and only if the main thread has not sent an event while no thread was running |
| `EventPipe.ByteFindsItem` | data-provider-master/src/event.c:756-760 | unless it has, the byte of an event finds an event |
| `EventPipe.TakenInOrder` | data-provider-master/src/event.c:756-760 | events are taken in the order they were listed by both threads: taken and still listed make up listed |
| `EventPipe.NeverStartedAgain` | data-provider-master/src/event.c:967-998 | once it has, no input thread is ever started again |
| `EventPipe.AskedIsObedient` | data-provider-master/src/event.c:1000-1025 | it never does if the thread ends only when asked to |
| `EventPipe.FailedInputDooms` | data-provider-master/src/event.c:505-583 | it can when the input device fails: a concrete run, at whose end the handler stays installed |

## Left out

Weaker than the source at these members:

- SlaveRpc.Dispatcher.Deactivate: the callbacks it calls with nothing issue no requests of their own; those of answers and activations do.
- SlaveRpc.Dispatcher.Request: the same, when it calls back at once because the slave is unknown or cannot be launched.
- SlaveRpc.Dispatcher.Consume: the same, when it calls back because the slave is not active or has lost its handle.
- RequestTables.RequestTable.Disconnect: its callbacks issue requests but do not lose further connections; the code would go on with a list entry that the inner clean-up has freed.
- RequestTables.RequestTable.Ack: one reply is processed at a time; an event loop run inside a callback is not modelled.
- Wire.PacketGet: a format that reads past the payload is excluded, being undefined in C; the reference reader says when that happens.
- PacketBody.PacketBuffer.PutArg: a write behind the end of the block or into memory given back is dropped here; in C it is undefined. `realloc` succeeds.
- Instances.Instance.AddClient: registering for the loss of the viewer succeeds; the return value of the slave request is not used, as in the code.
- Instances.Instance.ViewerDeactivated: instances with an owner only, see Lifecycle.RunKeepsInv.
- Instances.Instance.ActivateCb: a reply 1, which makes a further instance in the code, is treated as success.
- TouchEvents.EventInfo.DeactivateThread: the input thread gets to the byte that asks it to stop; in the code it waits first for the rest of an event it has half read.
- TouchEvents.EventInfo.Invoke: a callback neither registers nor deactivates listeners while it runs.
- Lifecycle.RunKeepsInv: instances with an owner only. Without one, the last viewer's leaving destroys the instance from inside `viewer_deactivated_cb`.
- Lifecycle.ChangingCountsRequests: a CMD_NEW purged by `slave_rpc_update_handle`, as happens for watch apps, counts as a request never answered; the purge itself is in SlaveRpc only.

Not modelled:

- Sockets, `select`, `pthread` and pipes as system calls; failed pipe writes; exhausted memory. A read moves at least one byte and at most as many as asked for, or fails.
- Passed file descriptors and process ids of senders.
- The conversion of payload and string sizes to `int` while a packet is written, and its overflow. `packet_size` itself is modelled with its narrowing.
- Handlers of PACKET_REQ packets: only their verdict matters here. The dispatch table of `packet_ready`, synchronous one-shot requests and send queues.
- `packet_ref` and `packet_unref` as calls: a command's packet reference is counted in SlaveRpc.
- Registration of connect and disconnect callbacks and the watch list of `com-core.c`; callbacks that a nested closing removes.
- Watch apps, glance bars, buffers, scripts and contents of an instance; a reply 1 to CMD_NEW makes a further instance in the code and is treated as success.
- `slave_life.c`: slaves accept or refuse requests, and answer accepted ones at most once, at any time.
- `slave_rpc_fini`, ping, pong and the time to live of slaves.
- In `service_common.c`: the receiving of bytes, which resembles that of `com-core_packet.c`, timers, termination callbacks, `service_common_destroy_tcb` and the shutdown of the server.
- A packet posted with the TCB of another client: the only caller of `service_common_send_packet_to_service` passes none.
- Coordinates, mouse emulation, `event_fini`, `event_reset_cbdata` and the mutex of the event list.
- The packet router, whose list and pipe are not kept in step, and all parsing, databases, graphics, settings and logging.
