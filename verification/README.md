# EventLoop: a verified model

EventLoop is a C++ library of event loops for Linux: runners that wait for file descriptors,
timers and callbacks, non-blocking sockets, a scatter/gather byte buffer, and the gmock copy
used to check it. This project models the parts of it that are hardest to get right and proves
what they promise. `dafny verify dfyconfig.toml` checks everything.

| file | what it models |
|---|---|
| `Basics.dfy`, `SocketEvents.dfy` | types used all over, and the events and callbacks of sockets |
| `MatchMatrix.dfy`, `Matching.dfy`, `MaxBipartiteMatch.dfy` | the maximum bipartite matching behind gmock's unordered element matchers |
| `Memory.dfy`, `BufferView.dfy`, `SliceLists.dfy`, `StreamBuffer.dfy` | the scatter/gather stream buffer over shared arrays |
| `Sharing.dfy` | two stream buffers that share arrays do not interfere |
| `SocketStreams.dfy`, `StreamSocket.dfy`, `EchoServer.dfy` | the stream socket, and the echo server as its client |
| `SeqPacketSocket.dfy` | the sequential packet socket |
| `WakeUp.dfy`, `CallbackQueue.dfy` | the callback queue and the wake-up protocol between threads |
| `Dispatch.dfy` | descriptor registration and the dispatch of events |
| `TimerQueue.dfy`, `RunnerTiming.dfy` | timers, and the two loops that execute them |
| `SignalMask.dfy` | signal sets and the signal mask while handled signals change |
| `ControlMessage.dfy` | ancillary data of sendmsg and recvmsg |
| `DumpFormatter.dfy` | the streaming indenter of dumps |

How it is modelled:

- Bytes live in heap arrays that slices share, as in the original. A stream buffer is seen as a
  list of cells (array, index) of which the first `used` are content and the others are free.
  The invariant that carries everything is that a free cell occurs nowhere else.
- Lists, maps and sets that the original changes in place are fields of the class.
- Clients and callbacks are finite scripts: what they do in each callback to come. Every
  theorem is for all scripts, and contracts say that scripts are carried out. The kernel
  answers as it likes, or is a script as well; what it takes and hands out is written by system
  calls only.
- Some long functions of the original are several methods here, one for each of their parts.
- Exceptions are results: a false or null result, an error value, or a `thrown` result.
- Times are integers in microseconds; the clock the runners read counts whole milliseconds, as
  the original's does (src/lib/System.cpp:40-45).

Where the code does less than it promises, the model keeps the code, says exactly when it goes
right, and shows an input that goes wrong:

- `linearize`, `getConstArray` and reading aligned data go wrong exactly if they have to
  linearize while a wholly free slice lies behind the content
  (`LinearizeWithTrailingSpaceBreaks`, `GetConstArrayWithTrailingSpaceIsWrong`,
  `GetDataWithTrailingSpaceIsWrong`).
- A copied stream buffer shares free space with the original (`CopySeparatedIffFull`,
  `CopyWithFreeSpaceInterferes`).
- A runner that waits in `epoll_wait()` may execute a timer early exactly if the milliseconds
  left wrap to a different int that is not negative, which takes 2^32 milliseconds or more
  (`WaitsLongEnough`, `TooLongTimeoutIsEarly`). It may not execute one at all exactly if they wrap
  to a negative int, as from 2^31 to below that (`WaitsNotTooLong`, `LongTimeoutWaitsForEver`).
- A sequential packet socket sends an empty packet again and again, and never gets past it
  (`ExactlyOnce`, `EmptyPacketBlocks`).
- Its event handler throws if the established callback's first send fails
  (`CheckConnectionEstablished`, `SendingWhenEstablished`).
- Replacing handled signals goes wrong with signals above 31 (`MaskAfter`,
  `UnnamedSignalIsNotBlocked`).
- Iterating over a control message of a size that is no multiple of 8 can leave its buffer
  (`SafeSizes`, `FillerLeaves`), and reserving less than is used makes its size a lie (`Reserve`,
  `ReservingLessBreaks`).
- A callback added by `canContinue()` right before a wait is not noticed (`RunKeepsWakeUp`,
  `ForgetfulRunFallsAsleep`).

## Model

| member | source | states |
|---|---|---|
| MatchMatrices.MatchMatrix.NextGraph | 3rdparty/gmock/src/gmock-matchers.cc:359-371 | The cells read as a binary number grow by one modulo 2 to the number of cells; the result is false exactly if that wrapped to zero |
| MatchMatrices.NumberIsInjective | 3rdparty/gmock/include/gmock/gmock-matchers.h:3032-3035 | Different matrices are different numbers below that modulus, so that counting runs through every graph |
| MatchMatrices.CarryAddsOne | 3rdparty/gmock/src/gmock-matchers.cc:360-368 | Clearing a run of ones and setting the zero behind it adds one |
| Matchings.CoverBoundsMatching | 3rdparty/gmock/src/gmock-matchers.cc:206-238 | No matching of a graph is larger than any of its vertex covers |
| Matchings.FullSizeCoversAll | 3rdparty/gmock/src/gmock-matchers.cc:332-333 | A matching reaches every right node exactly if it has as many pairs as there are right nodes |
| MaxBipartiteMatch.LinkAugments | 3rdparty/gmock/src/gmock-matchers.cc:277-281 | Linking two nodes after a successful search below them restores the mutual references despite the stale entry, newly matches only the left node searched from, and leaves closed sets of right nodes alone |
| MaxBipartiteMatch.FailureExhausts | 3rdparty/gmock/src/gmock-matchers.cc:259-285 | A failed search below a right node leaves that node, and all it marked, a dead end |
| MaxBipartiteMatch.MaxBipartiteMatchState.TryAugment | 3rdparty/gmock/src/gmock-matchers.cc:243-285 | Terminates; success augments along graph edges only and unmatches no left node; failure changes nothing and leaves all marked right nodes a set no path leaves |
| MaxBipartiteMatch.TriedOneMore | 3rdparty/gmock/src/gmock-matchers.cc:210-230 | Dead ends survive later successes, so a left node never needs a second try |
| MaxBipartiteMatch.FlowIsMaximum | 3rdparty/gmock/src/gmock-matchers.cc:210-238 | Once all left nodes were tried, the pairs are as many as a vertex cover and therefore a maximum matching |
| MaxBipartiteMatch.MaxBipartiteMatchState.AugmentAll | 3rdparty/gmock/src/gmock-matchers.cc:222-230 | One try for each left node, always finding it unmatched, ends in a maximum matching |
| MaxBipartiteMatch.MaxBipartiteMatchState.Compute | 3rdparty/gmock/src/gmock-matchers.cc:206-238 | The pairs listed are a maximum matching, each left node once and in ascending order |
| MaxBipartiteMatch.FindMaxBipartiteMatching | 3rdparty/gmock/src/gmock-matchers.cc:307-310 | For every graph the result is a matching with the most pairs possible |
| MaxBipartiteMatch.FindPairing | 3rdparty/gmock/src/gmock-matchers.cc:328-357 | True exactly if some assignment of elements of their own covers every matcher |
| Memory.CoverIsLeast | src/lib/StreamBuffer.cpp:161-170 | The number of slices listed for n bytes is the smallest that holds them |
| Memory.LocateDivides | src/lib/StreamBuffer.cpp:343-358 | The location found for byte n divides the list right there, whatever empty slices there are |
| Memory.CutsOnce | src/lib/StreamBuffer.cpp:78-97 | Taking n bytes off the front cuts the list between two slices or divides exactly one of them, into its two parts |
| Memory.DropLeavesNoneEmpty | src/lib/StreamBuffer.cpp:119-135 | Cutting bytes off leaves no empty slice behind if there was none |
| BufferViews.SplitConserves | src/lib/StreamBuffer.cpp:57-100 | Splitting loses nothing, keeps the order, and keeps every free cell unique |
| BufferViews.SplitContent | src/lib/StreamBuffer.cpp:57-100 | The contents of head and rest are the two parts of the old content |
| BufferViews.SplitSeparates | src/lib/StreamBuffer.cpp:80-97 | The head and the rest share arrays but no free cell of one is a cell of the other |
| BufferViews.AppendConserves | src/lib/StreamBuffer.cpp:226-251 | Appended cells go behind the content and before the free cells, which stay unique |
| BufferViews.AppendContent | src/lib/StreamBuffer.cpp:226-251 | The content becomes the two contents one after the other |
| BufferViews.InsertConserves | src/lib/StreamBuffer.cpp:278-294 | Truncating the first unused slice and inserting a new one keeps the content and the uniqueness of free cells |
| BufferViews.CopySeparatedIffFull | src/lib/StreamBuffer.cpp:28-42 | A copy and its original do not interfere if and only if nothing is free |
| SliceLists.SplitFront | src/lib/StreamBuffer.cpp:78-97 | The loop moves exactly the first n bytes to the other list; the cut falls between two slices, or one slice is divided into its two parts |
| SliceLists.DropFront | src/lib/StreamBuffer.cpp:119-135 | The loop cuts off exactly the first n bytes |
| SliceLists.FindLocation | src/lib/StreamBuffer.cpp:343-363 | Finds the slice and offset of a byte, taking a position right behind a slice for the start of the next |
| SliceLists.CopyFront | src/lib/StreamBuffer.cpp:157-172 | Lists the first bytes with the fewest slices, or as many as the limit allows |
| SliceLists.ListRest | src/lib/StreamBuffer.cpp:179-193 | Lists the slices behind the first bytes, the first one shortened: all of them, or as many as the limit allows |
| SliceLists.InsertFront | src/lib/StreamBuffer.cpp:226-251 | Puts the used slices of a list at byte n of a list, even of the same one |
| SliceLists.CopyIn | src/lib/StreamBuffer.cpp:204-221 | Copies data into consecutive slices, byte for byte, and writes nothing else |
| SliceLists.RestEndsSlice | src/lib/StreamBuffer.cpp:281-287 | What is given up at byte n reaches exactly to the nearest byte, from n on, where a slice starts or the list ends |
| SliceLists.InsertSlice | src/lib/StreamBuffer.cpp:278-294 | Inserts a slice at byte n and gives up exactly what there is up to the nearest byte where a slice starts or the list ends, which is nothing at the start of a slice |
| SliceLists.CopyOut | src/lib/StreamBuffer.cpp:306-321 | Copies the content to an array of its own and drops just the slices that held it |
| StreamBuffers.StreamBuffer.Copy | src/lib/StreamBuffer.cpp:28-34 | A copy has the same content and the same cells, free ones included |
| StreamBuffers.StreamBuffer.Assign | src/lib/StreamBuffer.cpp:36-42 | The same for assignment |
| StreamBuffers.StreamBuffer.Allocate | src/lib/StreamBuffer.cpp:48-55 | Leaves the content alone; adds one new slice of the missing size, rounded up to 8, only if space is missing |
| StreamBuffers.StreamBuffer.IncreaseUsed | include/EventLoop/StreamBuffer.hpp:70-73 | Turns the first free bytes into content, or fails and changes nothing |
| StreamBuffers.StreamBuffer.CutHead | src/lib/StreamBuffer.cpp:102-136 | Drops exactly the first bytes, of content first and then of free space, or fails and changes nothing |
| StreamBuffers.StreamBuffer.SpliceHead | src/lib/StreamBuffer.cpp:57-100 | Splits the buffer: head and rest together are the old cells and the old content, or fails and changes nothing |
| StreamBuffers.StreamBuffer.GetUsedIOVec | src/lib/StreamBuffer.cpp:138-173 | The vectors concatenate to a prefix of the content, to all of it if IOV_MAX of them suffice |
| StreamBuffers.StreamBuffer.GetFreeIOVec | src/lib/StreamBuffer.cpp:175-197 | As many vectors as there are slices left behind the content, but at most IOV_MAX; they are a prefix of the free space, and all of it below that limit; if anything is free and no slice is empty, they have room for a byte, so that receiving none means the end of the stream |
| StreamBuffers.StreamBuffer.AppendStreamBuffer | src/lib/StreamBuffer.cpp:226-251 | Appends the other's content without copying it; the other may be the buffer itself |
| StreamBuffers.StreamBuffer.AppendData | src/lib/StreamBuffer.cpp:199-224 | Appends the data, writing nothing but free cells; adds one slice of the missing size, rounded up to 8, only if space is missing |
| StreamBuffers.StreamBuffer.GetMutableArray | src/lib/StreamBuffer.cpp:253-269 | Appends a contiguous array right behind the old content, which stays; exactly if the first unused slice has too little room, the array is in a new slice that replaces the rest of that one, up to the nearest byte where a slice starts; so much free space is lost |
| StreamBuffers.StreamBuffer.GetMutableArrayNoFreeBuffers | src/lib/StreamBuffer.cpp:271-276 | The case without free space: a new slice, of which the front is used |
| StreamBuffers.StreamBuffer.GetMutableArrayFirstUnusedBufferTooSmall | src/lib/StreamBuffer.cpp:278-294 | The case of a too small slice: exactly what is left up to its end is given up for a new one, and the free space is what that leaves |
| StreamBuffers.StreamBuffer.ForceLinearize | src/lib/StreamBuffer.cpp:306-321 | One aligned slice holds the old content; the buffer is intact exactly if all slices behind the content were empty, and linear exactly if there were none |
| StreamBuffers.StreamBuffer.Linearize | src/lib/StreamBuffer.cpp:296-304 | Linear and intact afterwards exactly if it was linear before or its last slice held content |
| StreamBuffers.StreamBuffer.GetConstArray | src/lib/StreamBuffer.cpp:323-341 | Fails exactly beyond the content and changes nothing then; otherwise the buffer is intact and the result points at the bytes asked for if and only if one slice holds them or the last slice holds content, and if not it points into the first slice behind the content (for at least one byte) |
| StreamBuffers.StreamBuffer.ForceLinearizeAt | src/lib/StreamBuffer.cpp:333-341 | Linearizing first gives a pointer to the bytes of an intact buffer if and only if the last slice holds content |
| StreamBuffers.StreamBuffer.GetData | include/EventLoop/StreamBuffer.hpp:275-288 | The same for the first bytes at an aligned address: it goes right if and only if the first slice has them and is aligned, or the last slice holds content |
| StreamBuffers.LinearizeWithTrailingSpaceBreaks | src/lib/StreamBuffer.cpp:296-321 | Appending 8 bytes, allocating 80, cutting 1 and linearizing breaks the buffer |
| StreamBuffers.GetDataWithTrailingSpaceIsWrong | include/EventLoop/StreamBuffer.hpp:275-288 | In the same way a number of 4 bytes is read from the free slice |
| StreamBuffers.GetConstArrayWithTrailingSpaceIsWrong | src/lib/StreamBuffer.cpp:323-341 | With 16 bytes in two slices and a free third one, bytes 4 to 11 are read from the free slice |
| Sharing.AppendBeside | src/lib/StreamBuffer.cpp:199-224 | Appending data to a buffer shows in no other that it does not interfere with, and keeps it so |
| Sharing.SpliceBeside | src/lib/StreamBuffer.cpp:57-100 | The head interferes with neither the rest nor any other buffer |
| Sharing.ShareBeside | src/lib/StreamBuffer.cpp:226-251 | Appending a buffer shares its bytes with it and still interferes with nobody |
| Sharing.CutBeside | src/lib/StreamBuffer.cpp:102-136 | Cutting shows in no other buffer |
| Sharing.MutableBeside | src/lib/StreamBuffer.cpp:253-294 | The array handed out overlaps neither the old content nor any other buffer |
| Sharing.WriteBeside | include/EventLoop/StreamBuffer.hpp:162-177 | Writing through it appends the data and changes no other buffer's content |
| Sharing.CopyWithFreeSpaceInterferes | src/lib/StreamBuffer.cpp:28-34 | What is appended to a copy with free space replaces what was appended to the original, for any two pieces of data |
| SocketStreams.Kernel.Sendmsg | src/lib/System.cpp:256-267 | The first bytes of the vectors, as many as the kernel answers, are added to what it has accepted; the answer is added to its list, and a failure breaks the connection for good |
| SocketStreams.Kernel.Recvmsg | src/lib/System.cpp:269-280 | As many bytes as the kernel answers are added to what it has delivered and lie at the front of the vectors, and nothing else is written; the vectors have room, so that the answer of no bytes has one meaning |
| SocketStreams.Offer | src/lib/StreamSocket.cpp:247-249 | All of the content is offered to the kernel, or its first IOV_MAX slices; what the kernel accepts is the front of it, in order, however it is spread over slices |
| SocketStreams.SendBeside | src/lib/StreamSocket.cpp:245-253 | What the kernel accepts is the front of the content, and exactly that is cut off; free space and the other buffer stay the same |
| SocketStreams.ReceiveBeside | src/lib/StreamSocket.cpp:213-225 | The bytes the kernel delivers become the end of the content, in order, and change no other buffer; the vectors have room, so that no bytes mean the end of the stream |
| SocketStreams.Streams.Do | include/EventLoop/StreamSocket.hpp:101-111 | What a client does to the buffers is what its action says: appended data is added to the bytes appended, consumed data to those used up, echoed input to both, and the rest stays |
| SocketStreams.TraceIsReplay | include/EventLoop/StreamSocket.hpp:101-111 | Bytes delivered, used up and appended that follow each other step by step are what replaying all steps from nothing gives |
| SocketStreams.Streams.EchoInput | src/examples/EchoServer1/EchoServer.cpp:120 | All input moves to the end of the output without being copied, and nothing is lost or duplicated on either side |
| SocketStreams.Streams.AllocateReceiveBuffer | src/lib/StreamSocket.cpp:202-211 | Before a receive there is room for at least 10 KiB; the input stays as it is, and no space is added if there is enough |
| SocketStreams.Streams.Receive | src/lib/StreamSocket.cpp:213-227 | One receive is made with all the free space, if that is less than IOV_MAX slices; bytes used up followed by the input are all bytes the kernel has delivered, before and after |
| SocketStreams.Streams.Send | src/lib/StreamSocket.cpp:245-253 | One send is made; the kernel accepts the front of the output, and bytes accepted followed by the output are all bytes appended, before and after |
| StreamSockets.StreamSocket.CarryOut | src/lib/StreamSocket.cpp:136-288 | A callback carries out the next reaction of the script, all its actions and in their order, also if sending in it leads to further callbacks |
| StreamSockets.StreamSocket.TrySend | src/lib/StreamSocket.cpp:229-268 | Makes a send call; a failure closes with its error, taking all that was unsent is reported next, and if anything is left write events are asked for and nothing is reported; no callback, or callbacks that do nothing, leave unsent output being sent |
| StreamSockets.StreamSocket.AfterSend | src/lib/StreamSocket.cpp:254-267 | With bytes left, write events are asked for and nothing else happens, whatever the client is like; with none left they are no longer asked for and the client is told that all is sent |
| StreamSockets.StreamSocket.StartSending | src/lib/StreamSocket.cpp:280-288 | An idle established socket with output makes a send call at once, and otherwise nothing happens; unless a callback did something, unsent output is being sent afterwards |
| StreamSockets.StreamSocket.Close | src/lib/StreamSocket.cpp:270-278 | Closes and unregisters; the closed callback comes next, with the error, and only if it was open |
| StreamSockets.StreamSocket.OnEstablished | src/lib/StreamSocket.cpp:151-159 | The established callback comes first; a socket closed in it has unsent output, so that no closed descriptor is modified |
| StreamSockets.StreamSocket.CheckIncomingData | src/lib/StreamSocket.cpp:163-181 | Makes exactly one receive call if there is input: received data is what the client hears of next, an end or a failure closes with its error, and nothing to read changes nothing; the steps done are those of the reactions that this uses up; registration and sending stay as they are unless a callback sends |
| StreamSockets.StreamSocket.CheckConnectionClosed | src/lib/StreamSocket.cpp:192-200 | After a hang-up or an error the socket is closed, and reports the error of the socket or none for a mere hang-up; without them nothing changes at all |
| StreamSockets.StreamSocket.HandleEvents | src/lib/StreamSocket.cpp:136-143 | Keeps the invariants of registration, arming and callback order, whatever the client does in callbacks; an input event leads to one receive call, of which the client hears first even if there is a hang-up too, and an output event on a socket that stays open to a send call; the socket closes only after a hang-up, an error, the end of the stream or a failed call |
| StreamSockets.Run | src/lib/StreamSocket.cpp:136-288 | Over every run bytes delivered are those used up and the input, and bytes appended are those the kernel accepted and the output; what was delivered, used up and appended is what replaying the steps done gives, and no action of the script or of the client's own is missing from them or done twice; the socket is open if and only if no event was a hang-up or an error, no call failed and the stream has not ended, and then each input event has led to one receive; connecting or sending means write events are asked for, these on an established connection mean unsent output, established comes at most once, closed at most once and last |
| EchoServer.Serve | src/examples/EchoServer1/EchoServer.cpp:117-122 | Over every run of the echo server, bytes the kernel has accepted followed by the output are all bytes it has delivered; unsent output and asking for write events go together while open; it is open if and only if no event was a hang-up or an error, no call failed and the stream has not ended, and then each input event has led to one receive |
| SeqPacketSockets.SeqPacketSocket.Send | src/lib/SeqPacketSocket.cpp:145-162 | On an open socket the packet is the next one passed, before any the callbacks send; it waits at the end of the queue while connecting or sending, and otherwise is taken, queued or refused as the kernel answers, an empty one being queued even if taken; on a closed socket nothing happens |
| SeqPacketSockets.SeqPacketSocket.SendAll | src/lib/SeqPacketSocket.cpp:145-162 | All packets of a callback are passed on, in their order, as long as the socket is open, also if sending leads to further callbacks that send; without those they are passed one right after the other |
| SeqPacketSockets.SeqPacketSocket.ExactlyOnce | src/lib/SeqPacketSocket.cpp:145-162 | On an open socket the packets accepted followed by the queue are exactly those passed if and only if the kernel has not taken an empty one |
| SeqPacketSockets.SeqPacketSocket.TrySendFast | src/lib/SeqPacketSocket.cpp:293-324 | Counts as sent exactly if the kernel took a non-empty packet; a failure closes the socket and reports the error |
| SeqPacketSockets.SeqPacketSocket.Drain | src/lib/SeqPacketSocket.cpp:269-279 | As many packets leave the queue, in order, as the kernel takes without an empty one among them; packets are conserved if and only if it did not take an empty one, and what became of the first that did not go is pinned |
| SeqPacketSockets.SeqPacketSocket.SendFront | src/lib/SeqPacketSocket.cpp:271-278 | The first packet leaves the queue exactly if the kernel takes it and it is not empty |
| SeqPacketSockets.SeqPacketSocket.SendSlow | src/lib/SeqPacketSocket.cpp:267-286 | The same for the whole operation; once the queue is empty write events are no longer asked for and the client is told, before it does anything else |
| SeqPacketSockets.SeqPacketSocket.CheckConnectionEstablished | src/lib/SeqPacketSocket.cpp:180-196 | Does nothing without an input or output event, nor with a hang-up or an error; throws exactly if the socket was closed meanwhile, which takes a client that sends first in the established callback; it does if the kernel fails that first packet |
| SeqPacketSockets.SeqPacketSocket.CheckIncomingData | src/lib/SeqPacketSocket.cpp:198-211 | Makes exactly one receive call if there is input: a received packet is reported next, a failure closes with its error, and nothing to read changes nothing |
| SeqPacketSockets.SeqPacketSocket.CheckConnectionClosed | src/lib/SeqPacketSocket.cpp:257-265 | After a hang-up or an error the socket is closed, and reports the error of the socket or none for a mere hang-up; without them nothing changes at all |
| SeqPacketSockets.SeqPacketSocket.HandleEvents | src/lib/SeqPacketSocket.cpp:171-178 | Keeps conservation and arming over all four checks; an input event leads to one receive call, unless the handler throws, and what it gives is the first that the client of an established connection hears of; the socket closes only after a hang-up, an error or a failed call; while it is open packets passed and packets still to come by the script add up to what they did before |
| SeqPacketSockets.SendingWhenEstablished | src/lib/SeqPacketSocket.cpp:186-194 | The run that makes the event handler throw |
| SeqPacketSockets.EmptyPacketBlocks | src/lib/SeqPacketSocket.cpp:269-324 | With a kernel that takes every packet, an empty packet is sent each time and the packet behind it never |
| SeqPacketSockets.Run | src/lib/SeqPacketSocket.cpp:145-343 | Over every run with any packets, while open: accepted followed by queued packets are exactly those passed to send if and only if the kernel has taken no empty one, which it cannot without one being sent; those passed are as many as the run and the callbacks so far send, and without callbacks that send they are those the run sends; on an established connection write events, sending and a non-empty queue go together; and the socket is open if and only if no event was a hang-up or an error and no call failed, and then each input event has led to one receive |
| WakeUp.StepKeepsWakeUp | src/lib/CallbackQueue.cpp:18-33 | Each interleaved step of producers and runner keeps a wake-up pending for a waiting runner with callbacks, if and only if it is not the `canContinue()` before the wait adding one while the pipe is empty |
| WakeUp.RunKeepsWakeUp | src/lib/EpollRunner.cpp:265-320 | From every state with a wake-up pending, one is pending in all states of a run if and only if the run has no such step |
| WakeUp.ExecutedInAddingOrder | src/lib/CallbackQueue.cpp:35-66 | Over every run callbacks are executed once each and in the order they were added, one that throws being consumed |
| WakeUp.BytesConserved | src/lib/EpollRunner.cpp:65-76 | Over every run the bytes that were in the pipe and those written are the bytes read and those still in it |
| WakeUp.ReadsEverything | src/lib/EpollRunner.cpp:65-76 | Reading often enough for what is in the pipe empties it, and does nothing else |
| WakeUp.NoLostWakeUp | src/lib/EpollRunner.cpp:265-320 | Over every run without such a step, a waiting runner with callbacks has something to read |
| WakeUp.ForgetfulFallsAsleep | src/lib/EpollRunner.cpp:269-277 | From every state in which that step can be taken, going on to wait leaves the runner asleep with a callback waiting |
| WakeUp.ForgetfulRunFallsAsleep | src/lib/EpollRunner.cpp:265-299 | A run from the beginning that ends there |
| WakeUp.AsleepUntilWaitEnds | src/lib/CallbackQueue.cpp:27-32 | Whatever other threads add and do, such a runner is not woken up until something else ends its wait |
| WakeUp.IdleOnceRead | src/lib/EpollRunner.cpp:65-76 | A runner without callbacks that has read the pipe has nothing left that wakes it up in any run until a callback is added |
| WakeUp.WokenExecutes | src/lib/EpollRunner.cpp:265-300 | From every waiting state with callbacks, the end of the wait leads on to the first of them being executed |
| WakeUp.AsksBeforeWaiting | src/lib/EpollRunner.cpp:265-300 | `canContinue()` is asked before a wait if and only if callbacks have been executed, and its answer decides |
| WakeUp.RunAgainExecutes | src/lib/EpollRunner.cpp:250-255 | An exception loses no callback but the one it comes from: run again, the runner executes the next |
| CallbackQueues.CallbackQueue.Add | src/lib/CallbackQueue.cpp:18-33 | Appends a callback and wakes the runner up exactly if the queue was empty; refuses a null one and changes nothing then |
| CallbackQueues.CallbackQueue.Pop | src/lib/CallbackQueue.cpp:55-66 | Takes the oldest callback, or gives a null one exactly if there is none |
| Dispatch.Epoll.Wait | src/lib/Epoll.cpp:43-52 | Some events of different registered descriptors, at most as many as are registered; a timeout exactly if there are none |
| Dispatch.FDListenerMap.Add | src/lib/FDListenerMap.cpp:35-45 | Registers a new descriptor with the kernel too, or fails and changes nothing |
| Dispatch.FDListenerMap.Modify | src/lib/FDListenerMap.cpp:47-56 | Changes the events of a registered descriptor, calling the kernel exactly if they differ |
| Dispatch.FDListenerMap.Del | src/lib/FDListenerMap.cpp:68-77 | Removes a registered descriptor from both, or fails and changes nothing |
| Dispatch.Dispatcher.DelFDListener | src/lib/EpollRunner.cpp:344-348 | A successful deletion goes down in the history with the number of the registration; the monitor stays exact for the descriptors of the batch, even if the deletion fails |
| Dispatch.Dispatcher.RunActions | src/lib/EpollRunner.cpp:322-348 | Adding, modifying and deleting listeners one after the other has the outcome that the registrations and the exceptions give by themselves |
| Dispatch.Dispatcher.HandleEvents | src/lib/EpollRunner.cpp:293-294 | A listener that is called does what its script says: registrations afterwards and what it throws are the outcome of its actions in order, up to the first that throws; it adds its call, its successful deletions and what it throws to the history, in this order, and keeps the monitor exact |
| Dispatch.Dispatcher.Deliver | src/lib/EpollRunner.cpp:290-295 | The listener registered when the events were returned is called, and does what its script says, exactly if the history has no deletion of that very registration, even if the descriptor was added again; otherwise nothing happens, and the lookup cannot fail |
| Dispatch.LooksAtOneMore | src/lib/EpollRunner.cpp:284-296 | Looking at one more event keeps a round in order, whatever the listener did |
| Dispatch.Dispatcher.WaitAndHandleEvents | src/lib/EpollRunner.cpp:276-297 | In a whole round each event of the batch leads to one call, or to nothing if and only if a deletion of its registration precedes it in the history; events are left out only after an exception, and the monitor is off afterwards in any case |
| Dispatch.Dispatcher.DeliverAll | src/lib/AsyncRunner.cpp:112-124 | The dispatch loop of both runners is fair in this sense and nothing else happens in it, with listeners that add, modify, delete and throw as their scripts say |
| Dispatch.Dispatcher.Run | src/lib/EpollRunner.cpp:265-300 | Over every run the history is that of its rounds, one after the other, and all of them are fair; the registrations are what the listeners called have made of the first one by their scripts, call by call |
| TimerQueues.TimerQueue.PopFirstTimerToExecute | src/lib/TimerQueue.cpp:28-38 | Removes the one scheduled timer that is before all others by deadline and then by order of scheduling; it has a callback |
| TimerQueues.TimerQueue.Schedule | src/lib/TimerQueue.cpp:54-60 | Replaces any earlier scheduling of the timer by one entry with the new deadline, last among its equals |
| TimerQueues.TimerQueue.Cancel | src/lib/TimerQueue.cpp:62-68 | Removes exactly that timer, if it is scheduled |
| TimerQueues.TimerQueue.Erase | src/lib/TimerQueue.cpp:70-74 | Keeps entries and positions referring to each other, one to one |
| TimerQueues.Insert | src/lib/TimerQueue.cpp:59 | A new entry goes behind those with the same time, keeping the order |
| TimerQueues.TimerQueue.FirstIsEarliest | src/lib/TimerQueue.cpp:40-52 | The timeout is taken from the earliest deadline of all scheduled timers |
| TimerQueues.PopAll | tst/TimerQueueTest.cpp:40-49 | Popping until nothing is left gives every scheduled timer once, by deadline and among equals in the order of scheduling |
| TimerQueues.Timer.Schedule | src/lib/Timer.cpp:23-32 | Refuses a null callback and changes nothing then; otherwise schedules and remembers the callback |
| TimerQueues.Timer.Cancel | src/lib/Timer.cpp:34-38 | Unschedules and forgets the callback |
| TimerQueues.Timer.Execute | src/lib/Timer.cpp:45-50 | Takes the callback out before it is called, so that it can schedule the timer again |
| RunnerTiming.WaitsLongEnough | src/lib/EpollRunner.cpp:302-305 | A wait that times out has lasted until less than 1 ms before the deadline, whatever the kernel does, if and only if the milliseconds fit an int or wrap to a negative one |
| RunnerTiming.WaitsNotTooLong | src/lib/EpollRunner.cpp:302-305 | A wait that has lasted until the deadline has timed out, whatever the kernel does, if and only if the milliseconds do not wrap to a negative int; those that fit do not |
| RunnerTiming.LongTimeoutWaitsForEver | src/lib/EpollRunner.cpp:302-305 | A wait for 2^31 milliseconds never times out |
| RunnerTiming.TooLongTimeoutIsEarly | src/lib/EpollRunner.cpp:302-305 | A timeout of 2^32 milliseconds times out at once |
| RunnerTiming.Runner.Do | src/lib/Timer.cpp:23-38 | Scheduling and cancelling change exactly the entry of that timer, and adding a callback exactly the end of the queue; whether this ends an earlier scheduling is counted |
| RunnerTiming.Runner.Call | src/lib/CallbackQueue.cpp:35-46 | A callback that is called does what the next part of the script says, which is used up, and nothing else is executed in it |
| RunnerTiming.Runner.ExecuteCallbacks | src/lib/CallbackQueue.cpp:35-46 | Calls exactly the callbacks taken out of the queue, in order: all that waited, and all that were added meanwhile |
| RunnerTiming.Runner.TakeFirstTimer | src/lib/BaseEpollRunner.cpp:21-28 | The first timer leaves the queue and its callback, never null, is recorded with the time it is executed at, its deadline and the time it was asked for; it is less than 1 ms early |
| RunnerTiming.Runner.ScheduleTimer | src/lib/TimerQueue.cpp:54-60 | The time asked for is the time of scheduling plus the timeout; nothing changes for a null callback |
| RunnerTiming.Runner.ExecuteFirstTimer | src/lib/BaseEpollRunner.cpp:21-28 | Calls the callback of the first timer exactly once, if there is a timer |
| RunnerTiming.Runner.ExecuteTimersAndUpdateTimer | src/lib/AsyncRunner.cpp:128-154 | Terminates with no callback waiting; each timer that leaves the queue is executed or ended by a client, and each callback taken out of it called; the timer descriptor is disarmed if there is no timer, otherwise armed with a non-zero setting below a second of nanoseconds that is exactly the time from the clock reading to the first deadline |
| RunnerTiming.Runner.Arm | src/lib/AsyncRunner.cpp:72-78 | Seconds and nanoseconds add up to the timeout and are not both zero |
| RunnerTiming.Runner.Repeat | src/lib/EpollRunner.cpp:265-300 | Calls the waiting callbacks in order; goes on unless that called any and `canContinue()` refuses; then executes one timer, or calls the listeners; without waiting callbacks, a timer that is due is executed, and so is one whose deadline has passed by a millisecond when the wait ends, if it was less than 2^31 milliseconds away |
| RunnerTiming.Runner.Wait | src/lib/EpollRunner.cpp:302-305 | A wait that times out leaves the first timer due, and a wait that lasts as long as the timeout, if that is less than 2^31 milliseconds, times out |
| RunnerTiming.Run | src/lib/EpollRunner.cpp:257-305 | Over every run of either runner, no timer that was executed was so 1 ms or more before its deadline, nor 2 ms or more before the time it was asked for; callbacks have done what the script says, call by call; each scheduling among that has been executed, or was ended by a client, or is in the queue; all callbacks added have been called or wait, in order; all calls are of timers, of queued callbacks or of listeners, and no round with listeners to call passes without a call; an asynchronous runner ends each round without waiting callbacks and armed exactly if there is a timer |
| SignalMask.GetNext | src/lib/SignalSet.cpp:65-72 | The smallest named signal of the set behind the given one, or the end |
| SignalMask.Enumerate | include/EventLoop/SignalSet.hpp:50-73 | Iterating gives exactly the named signals of the set, in ascending order |
| SignalMask.Size | src/lib/SignalSet.cpp:55-63 | The number of named signals in the set |
| SignalMask.Equal | src/lib/SignalSet.cpp:74-84 | Equal exactly if the named signals are the same |
| SignalMask.SignalFD.constructor | src/lib/EpollRunner.cpp:117-130 | Blocks what is handled and remembers what was blocked before |
| SignalMask.SignalFD.FindChanges | src/lib/EpollRunner.cpp:141-160 | What the two loops find is exactly what is to be blocked and unblocked |
| SignalMask.MaskAfter | src/lib/EpollRunner.cpp:139-165 | The new mask is what was blocked before and what is handled now, if and only if no unnamed signal is mishandled |
| SignalMask.UnnamedSignalIsNotBlocked | src/lib/EpollRunner.cpp:139-165 | Signal 34 is then handled without being blocked |
| SignalMask.SignalFD.SetSignals | src/lib/EpollRunner.cpp:139-165 | The same for the operation; in between everything is blocked that was blocked before or is blocked afterwards |
| SignalMask.SignalFD.Destroy | src/lib/EpollRunner.cpp:132-137 | Restores the mask |
| SignalMask.Session | tst/EpollRunnerWithSignalsTest.cpp:160-188 | Over any sequence of replacements with named signals, the mask is exact each time, what was blocked before stays blocked all the time, and the mask is restored in the end |
| ControlMessages.HeaderRoundTrip | include/EventLoop/ControlMessage.hpp:222-225 | Length, level and type written into a header are read back |
| ControlMessages.ParseAppended | include/EventLoop/ControlMessage.hpp:213-227 | A record behind well-formed records is read after them, whatever its padding holds |
| ControlMessages.ControlMessage.Append | include/EventLoop/ControlMessage.hpp:213-227 | The records read afterwards are those before and the new one |
| ControlMessages.ControlMessage.MarkUsed | src/lib/ControlMessage.cpp:14-21 | Accepts exactly the sizes within the capacity |
| ControlMessages.ControlMessage.Reserve | include/EventLoop/ControlMessage.hpp:112-115 | The size stays within the capacity exactly if no less than is used is reserved |
| ControlMessages.ReservingLessBreaks | include/EventLoop/ControlMessage.hpp:112-115 | With any 16 bytes used, reserving 8 leaves a used size beyond the buffer |
| ControlMessages.Iterator.Dereference | include/EventLoop/ControlMessage.hpp:168-177 | Succeeds exactly if a whole header and the record's length fit the remaining size |
| ControlMessages.Iterator.Increment | include/EventLoop/ControlMessage.hpp:160-166 | Moves to the next aligned record; the remaining size wraps around if that is beyond the end |
| ControlMessages.SafeSizes | include/EventLoop/ControlMessage.hpp:160-196 | Iterating stays inside for all contents of a size if and only if that is a multiple of 8 or less than a header |
| ControlMessages.FillerLeaves | include/EventLoop/ControlMessage.hpp:160-166 | For every other size, one record that fills the used part makes the iterator leave it |
| ControlMessages.ReadAll | include/EventLoop/ControlMessage.hpp:160-196 | Iterating terminates and either gives the records, ends with a bad one, or leaves the used part, exactly as the bytes say |
| ControlMessages.GetData | include/EventLoop/ControlMessage.hpp:229-237 | The first bytes of the record's data, or an error exactly if there are too few |
| ControlMessages.AppendAll | include/EventLoop/ControlMessage.hpp:129-135 | Iterating after any list of appends finds exactly those records |
| DumpFormatters.DumpFormatterSink.Write | src/lib/DumpFormatter.cpp:16-43 | Writes the formatted characters and remembers where it is |
| DumpFormatters.DumpFormatterSink.IndentIfNeeded | src/lib/DumpFormatter.cpp:45-56 | Writes four spaces for each level at the start of a line, and none for a level that is not positive |
| DumpFormatters.ChunkIndependent | src/lib/DumpFormatter.cpp:16-43 | Writing in two parts is the same as writing all at once |
| DumpFormatters.FormatIndents | tst/DumpFormatterTest.cpp:18-32 | Each non-empty line but the first gets exactly four spaces for each brace open there, a leading close brace counted, and nothing else is added |
| DumpFormatters.StripInverts | src/lib/DumpFormatter.cpp:16-56 | Removing the indentation gives back the dump, for balanced braces or not |
| DumpFormatters.FormatIsInjective | src/lib/DumpFormatter.cpp:16-56 | No two dumps look the same when formatted |

## Left out

- WakeUp.NoLostWakeUp: assumes that the pipe takes every event; what becomes of a callback that `canContinue()` adds before the wait is stated beside it.
- StreamSockets.Run: clients only append to the output, use up input they have and start sending; a client that cuts the output in its callbacks could close the socket with nothing unsent.
- SeqPacketSockets.Run: says how many of the packets passed were sent in callbacks, and not which; SendAll says that for each callback, and Send for each packet.
- RunnerTiming.Run: is for timeouts below 2^32 milliseconds if the runner waits in `epoll_wait()`; from there on a wait can be too short, as TooLongTimeoutIsEarly and WaitsLongEnough say. What listeners called for events do is a part of the same script, and `canContinue()` does nothing but answer. Callbacks that throw out of a runner are in the wake-up and dispatch models only.
- Dispatch.Dispatcher.Run: clients do not delete the runner's own descriptor, and epoll_ctl does not fail.
- SignalMask.SignalFD.SetSignals: other threads and other code do not change the thread's mask meanwhile.
- TimerQueues.TimerQueue.GetTimeout: the clock reading is a parameter; special time values such as infinity do not occur.
- StreamBuffers.StreamBuffer.AppendData: appending nothing to a buffer without free space reads behind the list in the original, which the model excludes.
- Lists of slices, queues and maps are values held in fields; iterators and pointers into them, their invalidation, and the array of I/O vectors kept between calls are not modelled.
- Wrap-around of size_t other than in control messages, lack of memory, failing epoll_ctl calls, a recursive run(), and objects destroyed in their own callbacks.
- Errors other than those of sendmsg and recvmsg, EINTR, and the creation and closing of descriptors.
- The echo server's timeout and the removal of its closed connections.
- The order of system calls other than where a contract states it, and logging.
- dump() methods, type names, socket addresses, child processes, listening sockets, file descriptor wrappers, and the rest of gmock and gtest.
