# A verified model of the HMR RDMA transport

The repository is a message layer over RDMA verbs. Two endpoints connect, exchange the
descriptors of the memory regions they expose, send messages and remote writes through a
list that a timer flushes, and close with a FINISH/DONE handshake. This project states what
that code keeps over whole runs and proves it in Dafny.

How the files are layered:

| files | what they hold |
|---|---|
| `Sequences.dfy` | sums and images of sequences |
| `Wire.dfy`, `Allocator.dfy` | the message frame; the wrap-around allocator and its exact safe window |
| `LinuxList.dfy`, `Devices.dfy` | `linux/list.h` on the heap; releasing the device list |
| `TransportModel.dfy`, `TransportInvariants.dfy` | what every software step of one connection does, as functions on a record that also logs what was handed to the verbs library; what each step keeps, whatever completions arrive |
| `SendBatch.dfy`, `Transport.dfy` | the objects: pool, queue pair and transport with their routines, loops and arrays, each proved to do what the functions say |
| `Connection.dfy`, `ConnectionInvariants.dfy` | two endpoints and the network as a transition system; its invariant |
| `FifoDelivery.dfy`, `GracefulClose.dfy`, `DescriptorExchange.dfy`, `Progress.dfy`, `Ownership.dfy`, `RemoteWrites.dfy`, `ReceiveWindow.dfy` | the properties of every run |
| `Acceptance.dfy`, `FailedPosts.dfy` | which messages are taken; what a failed post leaves behind |
| `HandshakeProgress.dfy`, `CloseProgress.dfy` | when the two handshakes come to their end |
| `RepeatedDescriptor.dfy`, `EarlyCompletions.dfy`, `LongLists.dfy` | what goes wrong, and exactly when: a second descriptor, a completion before ESTABLISHED, a list longer than a batch |
| `SharedMemory.dfy`, `SharedMemoryProofs.dfy` | the same system with the bytes of both pools; it refines the one without them while the allocator's window is respected |
| `Overrun.dfy` | one byte beyond the window it does not |
| `CompletionChannel.dfy`, `PendingAccepts.dfy` | the completion-channel handler; the stack of pending connection requests |

`dafny verify dfyconfig.toml` checks everything. Every lemma is marked
`{:induction false}`: inductions are written out.

## Assumptions about the environment

- The reliable connection takes posted requests in order. A SEND needs a posted receive
  buffer, a remote write must lie in the peer's registered region, a send completion follows
  the delivery, and the completions of one queue come in order. All completions are successful.
- `ibv_post_send` takes a whole chain or nothing, and no chain that would make more than
  `MAX_SEND_WR` requests outstanding (the capacity asked for at
  `hmr_rdma_transport.c:411`); a single descriptor is always taken.
- A connection has posted its receives before ESTABLISHED is reported, and ESTABLISHED is
  handled once, before the first completion (`Connection.Enabled`). The code depends on this
  order without enforcing it; what it does otherwise is proved in `EarlyCompletions.dfy`.
- Steps of the application thread and of the event thread are atomic with respect to each
  other. The busy wait of `hmr_msg_check` is modelled as a step that is not enabled yet.
- The application sends NORMAL, WRITE and FINISH messages only, and a SEND frame fits a
  receive buffer.
- The machine is little-endian with 64-bit pointers; a descriptor is the 48 bytes of
  `struct ibv_mr`.

## Findings

- Safe window. When every request has between `m` and `L` bytes, exactly the runs of at most
  `Allocator.Window(m, L)` bytes never overlap themselves (`Allocator.WindowExact`). Frames
  have at least 8 bytes, so the window of the send region is `1025 - L` bytes for
  `9 <= L <= 509`, 516 for larger `L` and 1031 when all frames have 8. The message logged at
  `hmr_mem.c:92` says that the memory is full, but the code carries on at offset zero. One
  byte beyond the window there is, for every `L` from 56 to 128, a run in which the peer
  handles a message that nobody sent (`Overrun.OverrunCorrupts`).
- The client may answer the server's descriptor although it was itself an answer: it does so
  exactly when it handles it before the completion of its own SEND
  (`RepeatedDescriptor.SecondDescriptorIff`; the guard is `hmr_rdma_transport.c:272`). The
  server then handles a second descriptor and restarts `used_normal_size` at zero. Unless a
  post failed, two remote writes of the server overlap if and only if it posted one after
  each of the two (`RepeatedDescriptor.ServerCollisionsIff`, with a run in
  `RemoteWrites.ServerWritesCollide`); with failed posts this is still the only way
  (`RemoteWrites.CollisionsEveryRun`).
- An early FINISH can cut the descriptor exchange short. Before a disconnect the exchange is
  never stuck (`HandshakeProgress.NotStuckEveryRun`). After one, a side still becomes
  RCONNECTED if and only if a descriptor waits in its completion queue
  (`HandshakeProgress.AfterDisconnect`). The side that fails is always the client, and only
  after it handled a FINISH that the server sent before its descriptor
  (`HandshakeProgress.DoomedByEarlyFinish`); such a run exists for every FINISH message
  (`HandshakeProgress.EarlyFinish`).
- A failed post advances `used_normal_size` all the same, so the retry leaves a hole in the
  peer's region (`FailedPosts.RetryOffset`); the writes since the last descriptor have no
  hole if and only if no flush with a write on the list failed
  (`FailedPosts.TilesUnlessFailed`).
- The timer posts the whole list as one chain. A list of more than `MAX_SEND_WR` tasks is
  reachable by sending (`LongLists.AnyLengthReachable`), is refused as a whole, and is never
  posted again: everything on it, a DONE included, is lost for good
  (`LongLists.NeverDrains`). With more than `MAX_SEND_WR + 1` tasks the handler writes past
  its arrays, and only then (`Transport.Transport.SendTaskHandler`).
- A receive completion handled before ESTABLISHED breaks the exchange in two ways, both in
  reachable states (`EarlyCompletions.EarlyCompletionsReachable`). A descriptor is stored
  without being answered, and ESTABLISHED then lowers the state from RCONNECTED to CONNECTED
  (`EarlyCompletions.EarlyDescriptorIff`). A FINISH, and nothing else, makes the handler wait
  in `hmr_msg_check` for a state only its own thread can set
  (`DescriptorExchange.HandlerSendsIff`).

## Model

| member | source | states |
|---|---|---|
| Wire.FrameRoundTrip | hmr_task.c:17-23 | the receive handler reads back the type, size and bytes that were serialised, whatever follows the frame in the buffer |
| Wire.FramePrefixFree | hmr_rdma_transport.c:234-236 | no frame is a prefix of another message's frame |
| Wire.HeaderBytes | hmr_task.c:21-23 | in memory the type and the size are four-byte integers, lowest byte first, and the payload follows |
| Wire.ParseBytes | hmr_rdma_transport.c:234-236 | what the handler reads in any buffer, byte by byte |
| Wire.TypeFields | hmr_base.h:32-39 | the bytes of the type field of the six kinds of message |
| Wire.StructRead | infiniband/verbs.h:577-585 | from the 48-byte image of a struct ibv_mr every field is read back; the key and the address of remote writes are its own rkey and addr |
| Allocator.InRegionIff | hmr_mem.c:87-100 | a range handed out stays in its region if and only if the request is not longer than the region |
| Allocator.Safe | hmr_mem.c:87-100 | within the window two requests never share a byte and the run between them skips the tail at most once |
| Allocator.WindowExact | hmr_mem.c:87-100 | for requests of m to L bytes, m up to a frame header, runs of T bytes are safe if and only if T is at most the window; m = 1 is the allocator by itself, m = 8 its use for frames |
| Allocator.FrameWindow | hmr_mem.c:87-100 | the window of frames is 1031, 1025 - L or 516 bytes |
| Allocator.RecvBufferAt | hmr_mem.c:102-115 | the k-th receive buffer of size d is at d * (k mod (ALLOC_MEM_SIZE / d)) |
| Allocator.RecvWindow | hmr_mem.c:102-115 | any ALLOC_MEM_SIZE / d consecutive receive buffers are pairwise disjoint |
| LinuxList.ListHead.constructor | linux/list.h:56-60 | a fresh entry is a circle of one |
| LinuxList.Init | linux/list.h:56-60 | an entry becomes a circle of one |
| LinuxList.AddBetween | linux/list.h:68-76 | the circle cut open between prev and next is closed again with the new entry in the gap |
| LinuxList.Add | linux/list.h:86-89 | the entry is inserted in front |
| LinuxList.AddTail | linux/list.h:100-103 | the entry is appended; only the old last entry and the head are rewired |
| LinuxList.DelBetween | linux/list.h:112-116 | the other entries form a circle; the entry keeps its links; a circle of one stays one |
| LinuxList.Del | linux/list.h:129-134 | the entry is removed and poisoned, also when it is its own circle |
| LinuxList.DelInit | linux/list.h:163-167 | the entry is removed and becomes a circle of one |
| LinuxList.Replace | linux/list.h:143-150 | the new entry takes the old one's place, also when the old one was its own circle |
| LinuxList.Empty | linux/list.h:207-210 | true if and only if the list has no entry |
| LinuxList.IsSingular | linux/list.h:249-252 | true if and only if the list has exactly one entry |
| LinuxList.MoveTail | linux/list.h:185-190 | any entry of any list becomes the last of the same or another list |
| LinuxList.RotateLeft | linux/list.h:235-243 | the list is rotated by one, an empty one left alone |
| LinuxList.Cut | linux/list.h:254-264 | a list falls into two lists at the given entry |
| LinuxList.CutPosition | linux/list.h:280-292 | split at an entry or the head; nothing happens to an empty list or for a stranger to a list of one |
| LinuxList.SpliceBetween | linux/list.h:294-306 | the entries of one circle are inserted into another; the emptied head keeps its links |
| LinuxList.Splice | linux/list.h:313-318 | concatenation in front |
| LinuxList.SpliceTailInit | linux/list.h:356-363 | concatenation behind, leaving the other list empty |
| LinuxList.DrainAll | linux/list.h:541-545 | the safe traversal that unlinks every entry ends with an empty list and every entry a circle of one |
| Devices.DevRelease | hmr_rdma_transport.c:98-103 | a device already unlinked is unlinked again without touching any other entry |
| Devices.ReleaseAll | hmr_rdma_transport.c:105-114 | every device is released exactly once, in list order, and dev_list ends as an empty circle |
| TransportInvariants.SendInv | hmr_rdma_transport.c:893-938 | hmr_rdma_send keeps: accepted is posted then queued, every task has its own number, address and frame, remote offsets are ordered |
| TransportInvariants.FlushInv | hmr_timerfd.c:29-90 | a flush keeps the same, whether the post succeeds or fails |
| TransportInvariants.HandleInv | hmr_rdma_transport.c:226-282 | handling any completion keeps the same |
| TransportInvariants.StartInv | hmr_rdma_transport.c:477-513 | posting the first receives keeps the same |
| TransportInvariants.EstablishedInv | hmr_rdma_transport.c:547-568 | the ESTABLISHED handler keeps the same |
| SendBatch.ChainIsBatch | hmr_timerfd.c:44-68 | following next from send_wr[0] visits the queued tasks once each in order, ends in null, and gives each its own buffer, remote address and key |
| Transport.Mempool.constructor | hmr_mem.c:6-22 | a pool holds three regions of ALLOC_MEM_SIZE, nothing used |
| Transport.Mempool.AllocSend | hmr_mem.c:87-100 | the next send offset, restarting at zero when the request does not fit |
| Transport.Mempool.AllocRecv | hmr_mem.c:102-115 | the next receive offset, restarting at zero when the request does not fit |
| Transport.Transport.constructor | hmr_rdma_transport.c:691-728 | a created transport is in state INIT with an empty list |
| Transport.Transport.SendTaskCreate | hmr_task.c:7-27 | a fresh task whose frame is in the pool at its address, all other bytes unchanged |
| Acceptance.SendIff | hmr_rdma_transport.c:893-938 | one task that carries the message is created if and only if the state is CONNECTED to RCONNECTED, or RCONNECTED for READ and WRITE; it goes to the end of the list, or is posted for a descriptor |
| Acceptance.SendsEveryRun | hmr_rdma_transport.c:893-912 | in every run an application message is put behind all others if and only if the state is in that range, and otherwise has no effect yet |
| Acceptance.StaysOpen | hmr_rdma_transport.c:870-891 | once a side takes a type of message it always does |
| Acceptance.SentIff | hmr_rdma_transport.c:253-282 | when a completed send disconnects, acknowledges the descriptor and frees its task |
| Acceptance.DoneText | hmr_rdma_transport.c:198-201 | DONE carries its text with the terminating zero |
| Transport.Transport.MsgCheck | hmr_rdma_transport.c:870-891 | waits if and only if the state is below the first one for the type, fails if and only if it is above RCONNECTED |
| Transport.Transport.RdmaSend | hmr_rdma_transport.c:893-938 | in every state: waits, returns -1, or puts one task with the message at the end of the list or posts it for a descriptor; the pool changes only by the frame |
| Transport.Transport.ExchangeMrInfo | hmr_rdma_transport.c:213-223 | sends the own descriptor |
| Transport.Transport.PostRecv | hmr_rdma_transport.c:153-180 | posts one buffer of the default size |
| Transport.Transport.PrePostRecv | hmr_rdma_transport.c:182-190 | the loop posts ALLOC_MEM_SIZE / size - 2 buffers, none when that is not positive |
| Transport.Transport.Start | hmr_rdma_transport.c:836-868 | state CONNECTING with the first receives posted |
| Transport.Transport.OnEstablished | hmr_rdma_transport.c:547-568 | state CONNECTED; the client sends its descriptor |
| Transport.Transport.HandleCloseConnection | hmr_rdma_transport.c:192-211 | in every state: FINISH is answered with DONE unless that send waits, DONE sent or received disconnects |
| Transport.Transport.WcSuccessHandler | hmr_rdma_transport.c:226-282 | in every state the object does what the model's handler does with the message parsed in the buffer; it waits if and only if that is a FINISH whose answer has to wait |
| Transport.Transport.BuildBatch | hmr_timerfd.c:44-68 | the loop describes every queued task in both arrays and advances used_normal_size by the bytes of the remote writes; it leaves the arrays if and only if the list is longer than they are |
| Transport.Transport.DrainList | hmr_timerfd.c:82-88 | the list is empty afterwards |
| Transport.Transport.SendTaskHandler | hmr_timerfd.c:29-90 | for every list: on success the batch is posted and the list empty; on failure list and posted requests are unchanged but the offset has advanced by the bytes of the listed writes; the arrays are overrun if and only if more than MAX_SEND_WR + 1 tasks are listed |
| FailedPosts.FailedFlush | hmr_timerfd.c:59-81 | a failed post changes nothing but the offset, which moves on by the bytes of the listed writes |
| FailedPosts.RetryOffset | hmr_timerfd.c:59-81 | the retry places every write that much further on |
| FailedPosts.TilesUnlessFailed | hmr_timerfd.c:59-88 | in every run the writes since the last descriptor cover every byte below used_normal_size exactly once if and only if no flush with a write on the list failed since it was handled |
| ConnectionInvariants.RunInv | hmr_rdma_transport.c:226-282 | the invariant of two endpoints and the network holds in every reachable state |
| FifoDelivery.FifoEveryRun | hmr_rdma_transport.c:893-912 | per direction the handled messages are a prefix of the accepted ones, nothing is lost, doubled or reordered, accepted is posted then queued |
| GracefulClose.GracefulCloseEveryRun | hmr_rdma_transport.c:192-211 | when either side has disconnected, all the finisher queued before FINISH and all the responder queued before DONE has taken effect |
| CloseProgress.ClosedAtRest | hmr_rdma_transport.c:192-211 | at rest, with lists that fit a batch and writes that fit the region, a side has disconnected if and only if a FINISH was accepted |
| DescriptorExchange.ExchangeEveryRun | hmr_rdma_transport.c:264-276 | at most two and one descriptors are sent, RCONNECTED means the peer's own struct ibv_mr is stored, every remote write carries its rkey and an address based at its addr |
| DescriptorExchange.StateMonotone | hmr_rdma_transport.c:264-276 | trans_state never decreases and RCONNECTED is never left |
| DescriptorExchange.HandlerSendsIff | hmr_rdma_transport.c:192-223 | for every state up to RCONNECTED the receive handler sends what it owes at once if and only if it is not handling a FINISH before CONNECTED |
| DescriptorExchange.EstablishedSends | hmr_rdma_transport.c:547-568 | on_cm_established posts the client's descriptor at once, whatever the state before |
| DescriptorExchange.NeverSpinsEveryRun | hmr_rdma_transport.c:870-891 | in every run all that the receive handler and on_cm_established send is handed over at once |
| EarlyCompletions.EarlyDescriptorIff | hmr_rdma_transport.c:264-276 | a completion handled in CONNECTING makes ESTABLISHED lower the state if and only if it brought a descriptor, which is stored and not answered |
| EarlyCompletions.EarlyCompletionsReachable | hmr_rdma_transport.c:547-568 | a descriptor and a FINISH can each wait at the head of a completion queue in state CONNECTING |
| HandshakeProgress.NotStuckEveryRun | hmr_rdma_transport.c:264-276 | before a disconnect no reachable state is stuck until both sides are RCONNECTED |
| HandshakeProgress.HandshakeEnds | hmr_rdma_transport.c:264-276 | from every reachable state finitely many steps of the exchange lead to RCONNECTED on both sides or to a disconnect |
| HandshakeProgress.AfterDisconnect | hmr_rdma_transport.c:192-211 | after a disconnect a side becomes RCONNECTED in some continuation if and only if it is already or a descriptor waits for it |
| HandshakeProgress.DoomedByEarlyFinish | hmr_rdma_transport.c:192-211 | only the client can be left without a descriptor, and only after a FINISH that came before it |
| HandshakeProgress.EarlyFinish | hmr_rdma_transport.c:192-211 | for all descriptors and every FINISH there is a run that leaves the client CONNECTED for ever |
| Progress.WorkDecreasesEveryRun | hmr_rdma_transport.c:226-282 | every step but an application send reduces a measure of the work left, a failed flush leaves it alone |
| Progress.RestEveryRun | hmr_rdma_transport.c:226-282 | with the link up, lists that fit a batch and writes that fit the region, a state without an enabled step has all queues empty, every task freed and every accepted message handled |
| Ownership.OwnershipEveryRun | hmr_rdma_transport.c:280-281 | each send task is listed, outstanding or freed, only one of these, and freed at most once |
| RemoteWrites.CollisionsEveryRun | hmr_timerfd.c:59-63 | remote writes never overlap, except the server's from before and after its second descriptor |
| RemoteWrites.WritesTile | hmr_timerfd.c:59-63 | the writes since the last descriptor cover the range up to used_normal_size exactly once if and only if no offset was lost; if the range fits the peer's region each write does |
| RemoteWrites.TilingEveryRun | hmr_timerfd.c:59-63 | both hold on either side in every reachable state |
| RemoteWrites.RestartCollides | hmr_rdma_transport.c:268-275 | whatever is listed, the first write flushed after one more descriptor goes to offset 0 and, while no post failed, hits an earlier one if and only if used_normal_size was not zero |
| RemoteWrites.ServerWritesCollide | hmr_rdma_transport.c:264-276 | for all descriptors and payloads there is a run with two client descriptors and two server writes on the same bytes |
| RepeatedDescriptor.SecondDescriptorIff | hmr_rdma_transport.c:264-276 | in every run the client has posted two descriptors if and only if it handled the server's before the completion of its own SEND |
| RepeatedDescriptor.FirstWriteAtZero | hmr_timerfd.c:59-63 | without a failed post the first write after each descriptor is at offset 0 |
| RepeatedDescriptor.ServerCollisionsIff | hmr_timerfd.c:59-63 | in every run without a failed post of the server two of its writes overlap if and only if it posted one after each of two descriptors |
| LongLists.AnyLengthReachable | hmr_rdma_transport.c:893-912 | every list length is reachable on either side |
| LongLists.NeverDrains | hmr_timerfd.c:78-88 | a list longer than MAX_SEND_WR never loses a task in any continuation, and nothing on it is ever handled by the peer |
| LongLists.LongestBatch | hmr_rdma_transport.c:411 | a list of 256 tasks can be posted as one chain, one of 257 cannot |
| LongLists.CapacityEveryRun | hmr_rdma_transport.c:411 | in every run at most 256 requests are outstanding besides the descriptors |
| ReceiveWindow.WindowSlides | hmr_rdma_transport.c:182-190 | for every receive size that fits twice, after any number of completions exactly ALLOC_MEM_SIZE / d - 2 receives are unhandled, in disjoint buffers, disjoint also from the one handled last |
| ReceiveWindow.StartPosts | hmr_rdma_transport.c:182-190 | starting posts all buffers of the region but two, none when there are not more |
| ReceiveWindow.WindowEveryRun | hmr_rdma_transport.c:278-279 | in every run of two endpoints six receives are unhandled, in disjoint buffers, which are the eight of 128 bytes in turn |
| SharedMemoryProofs.MemoryRefinesMessages | hmr_task.c:17-23 | within the allocator's window the system that reads messages out of memory takes exactly the steps of the one that passes them by value |
| SharedMemoryProofs.EndToEndFifo | hmr_rdma_transport.c:226-252 | within the window the messages parsed out of the receive buffers are a prefix of the accepted ones, byte for byte |
| SharedMemoryProofs.ClientWritesEndure | hmr_rdma_transport.c:192-211 | every remote write of the client that took effect stays in the server's region, so all it queued before FINISH is there at the close |
| SharedMemoryProofs.SurvivesIff | hmr_task.c:17-23 | a listed frame survives the serialisation of any later one if and only if the allocator's ranges do not overlap |
| Overrun.OverrunCorrupts | hmr_mem.c:91-94 | for every frame bound from 56 to 128 and any memory there is a run within the window up to its last send, one byte beyond it then, in which the peer handles a message that was never accepted |
| CompletionChannel.NoLostWakeup | hmr_rdma_transport.c:293-322 | in every interleaving an idle handler with a non-empty queue has an event pending, and every event taken is acknowledged |
| CompletionChannel.NoLostCompletion | hmr_rdma_transport.c:314-320 | in every interleaving the completions taken and then those still queued are exactly those added, in order, and a turn takes one at most |
| CompletionChannel.EventsNeedArming | infiniband/verbs.h:2059-2067 | every event needs an arming of the queue of its own |
| CompletionChannel.Queue.CompChannelHandler | hmr_rdma_transport.c:293-322 | whatever the card adds between the steps, the handler ends with the queue empty and armed or with an event pending, one event taken and acknowledged, and has handed on every completion once, in order, one per turn |
| PendingAccepts.Listener.ConnectRequest | hmr_rdma_transport.c:540-542 | the request is on top of an acyclic stack and counted once |
| PendingAccepts.Listener.Accept | hmr_rdma_transport.c:836-868 | the newest request leaves the stack for good, accepted or dropped, and none is taken twice |

## Left out

- The verbs library, the connection manager, epoll, timers and threads appear only as steps of the environment; logging, address handling, device enumeration and the two example programs do not appear.
- READ messages: their requests never get a remote address, so the model only says that they are queued and posted like the others and never freed.
- Error completions, failures to take an event or to re-arm the queue, partially taken chains, allocation failures and the cleanup paths of `hmr_mempool_create` and `hmr_cq_get`: the code logs or leaks there.
- What happens after `rdma_disconnect`: nothing more is delivered; `on_cm_disconnected`, which tears the endpoint down, is not a step.
- Integer overflow: `used_normal_size` and the sizes are unbounded integers here, except that a message's own size field is a 32-bit integer.
- The rest of `linux/list.h`: list_move, list_splice_tail, list_splice_init and list_replace_init are compositions of modelled routines, and the hlist half of the header is unused.
- The busy wait of `hmr_msg_check` appears as a result, not as a loop: a routine that reaches it says that it waits and leaves the state as it is, because the wait ends by a step of the other thread.
- What the timer does after writing past its arrays: no step of the two-endpoint system flushes a list longer than MAX_SEND_WR + 1.
- Overrun.OverrunCorrupts: stops at frames of MAX_RECV_SIZE bytes, the longest a message may have; longer frames belong to remote writes, for which Allocator.WindowExact and SharedMemoryProofs.SurvivesIff give the overlap but no run is built.
- Races between threads without a lock, such as the one the source notes at `hmr_rdma_transport.c:540`, are excluded by the atomicity assumption.
- The NVM variant of the pools under `HMR_NVM_ENABLE`.
