# RapidTransfer, modelled and verified

This project models the reliable transport that RapidTransfer builds over RDMA
Unreliable Datagram: fragments in a ring, 24-bit sequence numbers, cumulative
acknowledgements, a Go-Back-N sender, congestion and flow control, multicast with one
tail per replica, and the ticket lock and allocators beside them. It states and proves
what the protocol promises for every run of sender, lossy network and receiver, and where
a promise is false of the code, exactly when it holds.

`dafny verify dfyconfig.toml` verifies the whole project.

## How it is built

- `SequenceNumbers`, `Fragmentation`, `SendRing`, `ReceiveRing`, `Packets`, `Control`,
  `Endpoint`, `TaskStatus` hold one function per operation, on values, and the lemmas
  about it.
- `PacketPool`, `SendQueues`, `ReceiveQueues`, `Contexts`, `McastContexts`, `Controllers`,
  `RequestCaches` hold the classes of the source, with their arrays, loops and updates in
  place. Each method is proved equal to the function of the same operation.
- `Unicast` and `Multicast` put the same functions together into a state machine of
  sender, network, receivers and applications. `UnicastShape` and `MulticastShape` prove
  what every run keeps whatever network and applications do, `UnicastSafety` and
  `MulticastSafety` that the right bytes arrive, `UnicastProgress` and `UnicastSends` when
  everything can be acknowledged, `MulticastReplies` when the replicas are heard.
  `UnicastTasks` and `MulticastTasks` add the fragment counts and the recorded tasks,
  `UnicastTiming` and `MulticastTiming` what acknowledgements say and what the sender makes
  of it.
- `Spinlock` is a state machine over the single instructions of the lock.
- `Runs` says what a run is, for any step relation.

The network of the model keeps every packet ever sent and may deliver any of them at any
time, any number of times, or never. Time, memory contents, the routing header and what
the other sessions of a context do to the packet pool and the round-trip estimate they
share are inputs of the steps, so the theorems hold for all of them. Fields that only the
proofs read are named as history where they are declared. For progress such a network
would help too much, since it could deliver an old acknowledgement again. `UnicastProgress`
therefore keeps, beside the machine, the frames sent and not yet delivered; there each
frame is delivered at most once.

What a step needs to make sense is written in `Possible` of `Unicast` and `Multicast`. The
theorems of `UnicastShape` and `MulticastShape`, and those about fragment counts and task
status, ask for nothing else. What the right bytes need besides is written in `Enabled`:
posted buffers match the sent ones in length and do not overlap, a send buffer is left
alone until it is acknowledged, no packet or acknowledgement arrives so late that its
24-bit number is read as another index, and the capacity divides 2^24 or at most 2^24
fragments are sent. The condition on lateness is exact: see `DataExactIff` and
`AckExactIff`.

## What the proofs found

- `getStatus` compares 24-bit numbers as plain integers. While the tail goes from before
  a task's end to behind it, every report the queue can give is right if and only if the
  tail stays below the next multiple of 2^24, the task ends before the head can reach that
  multiple, and the head does not get past it by more than the task's own short number
  (`RightThroughoutIff`). A send of 2^24 fragments is reported finished at once.
- An empty buffer is counted as no fragment but sent as one. Every task from then on is
  reported finished too early, by as many fragments as empty ones were pushed, and that
  can be observed whenever there is one (`AlwaysRightIff`).
- `incr` is never cut back with `cwnd`, and grows by mtu / 16 for ever. Every long enough
  sequence of acknowledgements pushes it into the last `mtu - 1` values of its 32 bits, and
  that acknowledgement makes `cwnd` zero. Nothing is sent until another acknowledgement
  arrives, which opens the window to one. If none is under way and none is owed, the
  transfer hangs for ever, whatever is sent besides (`StuckForever`).
- The assertion `wnd_size <= queue_capacity` is one short: the fill loops let `wnd + 1`
  fragments in. The 24-bit slot is right beyond 2^24 fragments only if the capacity
  divides 2^24.
- A send that meets an empty packet pool succeeds without sending. With nothing in the
  ring and nothing under way, only another send tries again (`CompletesIff`).
- `setWndSize` cuts the capacity to 16 bits. With a capacity whose low 16 bits are below
  the window, the queue's window becomes those low bits, zero for 65536.
- A multicast replica drops and does not count what arrives when all its posted buffers are
  filled. If its last acknowledgement is lost then, it is never repeated, and the send
  hangs until the replica posts another buffer (`HeardIff`).
- The send pass works on a copy of the session, so its changes to `cwnd`, `ssthresh` and
  `last_send_ts` are lost. The model follows the code.
- The smoothed round-trip time never climbs to a constant larger sample, because the
  division rounds down.
- A null buffer with a positive length makes `push` fail after its first fragment has been
  removed from the queue. The rest of the list is sent all the same, one index early.
- `tryLockShared` takes the new user count from its load and not from the value it
  compares with. If `read` advances 2^16 times in between, tickets are lost that nobody
  holds. With at most 2^15 threads the lock can then never be taken again; with more, the
  remaining threads can draw until the counters wrap, and a writer enters beside a reader.
- A replica listed in two groups always moves the tail of the one visited first
  (`FindIff`), so the multicast theorems ask for one group per replica.
- The repository's documentation calls the protocol Go-Back-N. The unicast sender is;
  the multicast sender resends each packet on its own timer.

## Model

| member | source | states |
|---|---|---|
| `UnicastSafety.EndToEnd` | src/protocols/rdma_unreliable/context.cpp:336-381 | in every state of every run over a network that loses, duplicates and reorders, with a capacity that divides 2^24 or at most 2^24 fragments: sender tail <= receiver tail <= sender head, every receive fragment below the receiver tail holds the sender's bytes, and no destination is written twice |
| `UnicastShape.ReceiveExact` | src/protocols/rdma_unreliable/packet_manager.cpp:455-495 | in every state of every run, whatever the age, number and length of arriving packets and any capacity of at least 66: the receive tail is the first index not yet accepted, no slot outside [tail, head) is in flight, and the log of writes names each accepted index once and no other |
| `UnicastShape.WritesLogged` | src/protocols/rdma_unreliable/packet_manager.cpp:465-475 | that log is what happens to memory: from every state of every run, any delivered packet changes memory by its payload at the destination of the index it adds to the log, and by nothing at all if it adds none |
| `UnicastShape.WindowBound` | src/protocols/rdma_unreliable/context.cpp:398-416 | in every state of every run, with any capacity of at least 66 and packets of any age: advertised and send windows stay at most 65, occupancy at most 66, and slot i % capacity holds fragment i for every live i |
| `UnicastShape.GoBackN` | src/protocols/rdma_unreliable/context.cpp:238-286 | from every state of every run, with any capacity of at least 66 and packets of any age, a send pass sends nothing, or exactly the range from the tail to min(head, tail + cwnd), each index once and in order; which of the two is decided by the oldest packet's timer |
| `UnicastShape.PassExact` | src/protocols/rdma_unreliable/context.cpp:238-286 | from every state of every run, what a pass changes: the packets up to the window stamped with its time and put on the network, or none; the queue's window untouched when none of them was sent before, otherwise 4 + (max(cwnd, 4) - 4) / 2^k for k resent packets, up to the capacity modulo 2^16; the rest of the session as it was |
| `UnicastShape.AckFills` | src/protocols/rdma_unreliable/packet_manager.cpp:283-314 | from every state of every run an acknowledgement refills the ring above the new tail until nothing is left, the window is full or the pool is empty |
| `UnicastShape.StepShape` | src/protocols/rdma_unreliable/context.cpp:229-381 | every step that makes sense keeps the ring, the window bounds, the order of the timers, the receive queue and the single writes |
| `ReceiveRing.MarkAny` | src/protocols/rdma_unreliable/packet_manager.cpp:455-482 | a packet of any number, age and length is copied to at most one destination, one not copied to before, changes no other byte of memory, and leaves the receive queue in order, whatever the capacity |
| `UnicastSafety.StepKeeps` | src/protocols/rdma_unreliable/context.cpp:229-381 | every step of sender, receiver, network and applications keeps the protocol invariant, and neither tail goes back |
| `UnicastSafety.RunKeeps` | src/protocols/rdma_unreliable/context.cpp:229-381 | so every run keeps it |
| `UnicastSafety.SendKeeps` | src/protocols/rdma_unreliable/context.cpp:91-111 | cutting and pushing any valid buffers, with any pool, keeps the invariant, and as many fragments enter the ring as window and pool allow |
| `UnicastSafety.TransmitKeeps` | src/protocols/rdma_unreliable/context.cpp:229-298 | a send pass keeps the invariant: what it puts on the network is what the indices stand for |
| `UnicastSafety.DeliverDataKeeps` | src/protocols/rdma_unreliable/context.cpp:344-363 | a data datagram whose 24-bit number is read exactly, however often delivered, keeps the invariant |
| `UnicastSafety.EqualListsMatch` | src/protocols/rdma_unreliable/packet_manager.cpp:447-453 | applications that push and post lists of equal lengths agree on the length of every fragment |
| `UnicastSafety.SendAckKeeps` | src/protocols/rdma_unreliable/context.cpp:300-334 | the acknowledgement sent stands for the receive tail and keeps the invariant |
| `UnicastSafety.DeliverAckKeeps` | src/protocols/rdma_unreliable/context.cpp:364-372 | a delivered acknowledgement moves the tail to the larger of the tail and what it stands for, and keeps the invariant |
| `UnicastSafety.PassAllOrNothing` | src/protocols/rdma_unreliable/context.cpp:238-286 | timestamps along the ring never increase, so the early exit is taken at once or not at all |
| `UnicastProgress.CompletesIff` | src/protocols/rdma_unreliable/context.cpp:229-334 | no stuck state, exactly: over a network that delivers each frame at most once, with no frame under way, no acknowledgement owed, and without a new send or a change of the pool, everything can be acknowledged if and only if it already is, or the ring is not empty, cwnd is at least one and the pool covers the slots the remaining fragments will use |
| `UnicastProgress.Progress` | src/protocols/rdma_unreliable/context.cpp:229-334 | from every state with a packet in the ring, an open window and enough packet buffers, whatever is under way, there is a schedule of at most 138 steps per unacknowledged fragment after which everything is acknowledged; every frame it sends is delivered once and it delivers no other, whatever cwnd and incr are |
| `UnicastProgress.RunLive` | src/protocols/rdma_unreliable/context.cpp:229-381 | every run keeps the protocol invariant and the initial slow-start threshold, because the pass works on a copy of the session |
| `UnicastProgress.ReachTail` | src/protocols/rdma_unreliable/context.cpp:229-334 | from a state in order some schedule, which may lose frames, brings the tail to any chosen fragment exactly |
| `SendRing.FillShortage` | src/protocols/rdma_unreliable/packet_manager.cpp:297-314 | filling takes a packet buffer exactly when it removes the need for one |
| `UnicastProgress.Round` | src/protocols/rdma_unreliable/context.cpp:229-381 | a timeout, a pass, the delivery of its frames and an acknowledgement, made twice before delivery where the first acknowledgement would close the window, lower the number of unacknowledged fragments, leave the window open and leave under way exactly what was |
| `UnicastProgress.TransmitSendsTail` | src/protocols/rdma_unreliable/context.cpp:238-286 | once the longest timeout has passed, a pass with an open window sends the oldest unacknowledged packet first |
| `UnicastProgress.SilentForever` | src/protocols/rdma_unreliable/context.cpp:238-286 | with a zero window or an empty ring, in every run without arriving acknowledgements, and with new sends as long as the window is zero, nothing is sent again and the tail does not move |
| `UnicastProgress.StuckForever` | src/protocols/rdma_unreliable/context.cpp:238-286 | with a zero window or an empty ring, no frame under way and no acknowledgement owed, no run ever moves the tail, whatever the applications and the pool do, except that a new send may help an empty ring: the transfer hangs |
| `UnicastProgress.ShortForever` | src/protocols/rdma_unreliable/packet_manager.cpp:297-314 | with too few packet buffers for the remaining fragments, no run without a new send or a change of the pool acknowledges everything |
| `UnicastProgress.StalledExample` | src/protocols/rdma_unreliable/packet_manager.cpp:297-314 | a first send that finds the pool empty succeeds, stays entirely outside the ring, and leaves a silent sender with nothing under way |
| `UnicastSends.SendFills` | src/protocols/rdma_unreliable/context.cpp:91-111 | from every state of every run, whatever network and applications do, a send appends the fragments of its buffers, fills the ring at once until nothing is left, the window is full or the pool is empty, and changes nothing else |
| `UnicastSends.SendOpens` | src/protocols/rdma_unreliable/packet_manager.cpp:276-314 | from every state of every run, after a send into an empty ring a packet can go out if and only if cwnd is at least one and the pool covers the slots the fragments will use |
| `UnicastSends.SendCompletesIff` | src/protocols/rdma_unreliable/context.cpp:91-111 | when everything before is acknowledged and nothing is under way, a send whose buffers are posted can be acknowledged completely if and only if cwnd is at least one and the pool covers its slots |
| `UnicastSends.FirstSendCompletesIff` | src/protocols/rdma_unreliable/context.cpp:91-133 | from the initial state, a first send with buffers posted for it can be acknowledged completely if and only if the pool has a packet buffer for each of its fragments or for every slot |
| `MulticastSafety.Agreement` | src/protocols/rdma_unreliable/context_mcast.cpp:457-518 | in every state of every run with any number of replicas: each tail is at most its own replica's receive tail, every replica holds the sender's bytes below its tail and each destination was written once, occupancy is at most 65 and the slot of an index is kept until the slowest replica has passed it |
| `MulticastSafety.AckMovesOwnTail` | src/protocols/rdma_unreliable/context_mcast.cpp:493-503 | from every state of every run an acknowledgement moves exactly its own replica's tail, to the larger of the two values |
| `MulticastShape.WindowBound` | src/protocols/rdma_unreliable/context_mcast.cpp:359-518 | in every state of every run, with packets of any age, any routing and any capacity of at least 66: windows stay at most 64, the sender holds at most 65 packets beyond the slowest tail, and slot i % capacity holds fragment i for each of them |
| `MulticastShape.AckMovesOneTail` | src/protocols/rdma_unreliable/context_mcast.cpp:493-503 | from every state of every run an acknowledgement of any age and routing moves at most one tail, forward and within the ring |
| `MulticastShape.ReceiveExact` | src/protocols/rdma_unreliable/packet_manager.cpp:455-495 | in every state of every run every replica's receive tail is the first index in flight or the head, no slot outside [tail, head) is in flight, and its log of writes names each accepted index once and no other |
| `MulticastShape.StepShape` | src/protocols/rdma_unreliable/context_mcast.cpp:359-518 | every step that makes sense keeps the ring, the windows, the tails and every receive queue |
| `MulticastShape.SendFills` | src/protocols/rdma_unreliable/context_mcast.cpp:148-170 | from every state of every run a multicast send fills the ring at once until nothing is left, the window above the slowest tail is full or the pool is empty, and changes nothing else |
| `MulticastShape.PassExact` | src/protocols/rdma_unreliable/context_mcast.cpp:359-417 | from every state of every run a pass sends and stamps exactly the packets beyond the slowest tail whose own timer has run out, and closes the queue's window to one if and only if one of them was sent before |
| `MulticastShape.ReplyFills` | src/protocols/rdma_unreliable/packet_manager.cpp:365-407 | from every state of every run an acknowledgement routed to a tail refills the ring above the slowest tail |
| `MulticastTasks.SuccessMeansEverywhere` | src/protocols/rdma_unreliable/context_mcast.cpp:198-209 | in every state of every run a recorded send that is finished by the slowest tail has arrived at every replica, with the sender's bytes |
| `MulticastTasks.StatusExact` | src/protocols/rdma_unreliable/context_mcast.cpp:198-209 | in every state of every run, whatever network, routing and applications do: fragment counts plus empty fragments are head plus what is to come, and every recorded task, a send by the slowest tail and a receive by its own, is reported by its counted end |
| `MulticastTiming.RepliesExact` | src/protocols/rdma_unreliable/context_mcast.cpp:419-455 | in every state of every run, whatever network, routing and applications do: every reply carries its replica's receive tail modulo 2^24, the window 64 and the newest timestamp accepted, as they were when it was sent; a replica counts exactly the packets that find something posted |
| `MulticastTiming.ReplyHeeded` | src/protocols/rdma_unreliable/context_mcast.cpp:493-551 | from every state of every run, a delivered reply feeds the estimator with the age, modulo 2^48, of the newest frame its replica had accepted; the windows follow the congestion rule and the queue's window becomes cwnd, cut to the capacity modulo 2^16 |
| `MulticastReplies.AnswerExact` | src/protocols/rdma_unreliable/context_mcast.cpp:419-455 | from every state of every run a replica that owes an answer adds exactly one reply, which stands for its receive tail, with its window and newest timestamp, and owes nothing afterwards |
| `MulticastReplies.AllAnswered` | src/protocols/rdma_unreliable/packet_manager.cpp:365-382 | in every run in which each replica answers once from at or past n and that answer is delivered, the slowest tail ends at or past n |
| `MulticastReplies.AnsweredFinished` | src/protocols/rdma_unreliable/context_mcast.cpp:198-209 | then every recorded send that ends at or before n is finished, and below 2^24 fragments reported finished |
| `MulticastReplies.Collect` | src/protocols/rdma_unreliable/context_mcast.cpp:419-503 | when all replicas are at or past n and owe an answer, a run of three steps for each of them brings the slowest tail to n |
| `MulticastReplies.HeardIff` | src/protocols/rdma_unreliable/context_mcast.cpp:479-491 | when every answer of a replica has been heard, it owes none and packets beyond its tail are in the ring: without posting more it can be heard again if and only if a posted buffer is still to be filled |
| `MulticastReplies.DeafForever` | src/protocols/rdma_unreliable/context_mcast.cpp:482-486 | otherwise its tail at the sender stays where it is in every run in which it posts nothing more |
| `MulticastSafety.RouteOwn` | src/protocols/rdma_unreliable/controller.cpp:208-223 | a replica listed in exactly one group is routed to its own index in that group, in whatever order groups are visited |
| `MulticastSafety.SweepOk` | src/protocols/rdma_unreliable/context_mcast.cpp:359-417 | a multicast pass changes only timestamps and the window, and sends only current packets of live indices |
| `MulticastSafety.SweepExact` | src/protocols/rdma_unreliable/context_mcast.cpp:366-408 | exactly the packets whose own timer has run out are sent and stamped; all others are left as they were |
| `MulticastSafety.SweepWindow` | src/protocols/rdma_unreliable/context_mcast.cpp:368-375 | the queue's window closes to one packet if and only if some packet goes out again |
| `MulticastSafety.MinTailUp` | src/protocols/rdma_unreliable/packet_manager.cpp:425-431 | moving one tail forward never moves the slowest one back |
| `MulticastSafety.StepKeeps` | src/protocols/rdma_unreliable/context_mcast.cpp:359-518 | every step keeps the multicast invariant |
| `MulticastSafety.RunKeeps` | src/protocols/rdma_unreliable/context_mcast.cpp:359-518 | so every run keeps it |
| `TaskStatus.ReportedIff` | src/protocols/rdma_unreliable/context.cpp:135-154 | for any end, tail and head the report of getStatus is right if and only if a condition on their 2^24 blocks and low bits holds |
| `TaskStatus.RightThroughoutIff` | src/protocols/rdma_unreliable/context.cpp:148-152 | while the tail goes from before the end of a task to behind it and the queue is at most 66 wide, every report is right if and only if the tail stays below the next multiple of 2^24, the task ends before the head can reach it, and the head does not get past it by more than the short number of the task |
| `TaskStatus.SaidIff` | src/protocols/rdma_unreliable/context.cpp:148-152 | within one block a recorded task is reported wrongly exactly while the tail is among its last fragments, as many as empty ones were pushed |
| `TaskStatus.EnterOk` | src/protocols/rdma_unreliable/packet_manager.h:132-141 | every push keeps the fragment count plus the empty fragments equal to the fragments pushed, for the queue and for the recorded end of every task |
| `UnicastTasks.WrapExample` | src/protocols/rdma_unreliable/context.cpp:148-152 | from the initial state, a send of 2^24 fragments is recorded and reported finished before any of them is acknowledged |
| `UnicastTasks.EmptyBufferExample` | src/protocols/rdma_unreliable/packet_manager.h:132-141 | from the initial state, a send of one empty buffer is recorded and reported finished before its packet is acknowledged |
| `UnicastTasks.StatusExact` | src/protocols/rdma_unreliable/context.cpp:135-154 | for every recorded send and receive task in every state of every run, whatever network and applications do: within one block reported finished exactly when all fragments it was counted for are behind the tail, in one block below 2^24 fragments, and with no empty buffer right exactly as ReportedIff says |
| `UnicastTasks.FinishedArrived` | src/protocols/rdma_unreliable/context.cpp:135-154 | in every state of every run in which the right bytes arrive, a send or receive task that is finished has arrived completely, with the sender's bytes |
| `UnicastTasks.AlwaysRightIff` | src/protocols/rdma_unreliable/context.cpp:135-154 | where everything can be acknowledged and nothing arrived out of order, the report on an unfinished send is right in every state that can follow if and only if no empty buffer was pushed up to and including it |
| `UnicastTasks.StatusStays` | src/protocols/rdma_unreliable/context.cpp:135-154 | a recorded send or receive task once reported finished is in every later state, below 2^24 fragments, whatever network and applications do |
| `UnicastTasks.Conservation` | src/protocols/rdma_unreliable/packet_manager.cpp:276-314 | in every state of every run, whatever network, pool and applications do: head plus remaining fragments is the fragment count plus the empty fragments, for sends and receives; ring and remaining are exactly the fragments pushed, in order; when the head reaches the end of a task its low bits are the number recorded for the task, empty fragments apart |
| `UnicastTiming.AcksExact` | src/protocols/rdma_unreliable/context.cpp:300-334 | in every state of every run, whatever network and applications do: every frame carries the time of the pass that sent it; every acknowledgement carries the receive tail modulo 2^24, max(head - tail, 8) as window and the newest timestamp accepted, all as they were when it was sent; acknowledgements are at most as many as packets counted, and every delivered packet is counted once |
| `UnicastTiming.AckHeeded` | src/protocols/rdma_unreliable/context.cpp:364-416 | from every state of every run, a delivered acknowledgement feeds the estimator with the age, modulo 2^48, of the newest frame accepted when it was sent, the true age if and only if that is below 2^48; the windows follow the congestion rule for the window advertised, and the queue's window becomes cwnd, cut to the capacity modulo 2^16 |
| `UnicastTiming.NewestIs` | src/protocols/rdma_unreliable/packet_manager.cpp:473 | the newest timestamp is that of an accepted frame, and no accepted frame's is larger |
| `SequenceNumbers.AckTailRefines` | src/protocols/rdma_unreliable/packet_manager.cpp:283-295 | the three 24-bit cases give the only index in [tail, head] congruent to the acknowledgement, and the old tail if there is none |
| `SequenceNumbers.AckExactIff` | src/protocols/rdma_unreliable/packet_manager.cpp:283-295 | a cumulative acknowledgement is read as the 64-bit one if and only if it does not alias an index still held |
| `SequenceNumbers.FreshAck` | src/protocols/rdma_unreliable/packet_manager.cpp:283-295 | in particular one less than 2^24 behind the head is |
| `SequenceNumbers.AdmitsIff` | src/protocols/rdma_unreliable/packet_manager.cpp:455-463 | the window test admits a 24-bit number exactly when it is less than the window ahead of the tail, modulo 2^24 |
| `SequenceNumbers.DataExactIff` | src/protocols/rdma_unreliable/packet_manager.cpp:455-465 | an admitted data packet stands for its own index if and only if that is not behind the tail or its distance misses the window |
| `SequenceNumbers.FreshData` | src/protocols/rdma_unreliable/packet_manager.cpp:455-465 | in particular a packet at most 2^24 minus the window late is never taken for another index |
| `SequenceNumbers.StaleDataMisread` | src/protocols/rdma_unreliable/packet_manager.cpp:455-465 | a packet later than that by less than the window is taken for the index 2^24 further on |
| `SequenceNumbers.ShortSlotIff` | src/protocols/rdma_unreliable/packet_manager.cpp:464 | sn % capacity is the slot of the index for every index if and only if the capacity divides 2^24 |
| `SequenceNumbers.SlotsDistinct` | src/protocols/rdma_unreliable/packet_manager.h:171-173 | indices less than a capacity apart never share a slot |
| `Fragmentation.CutAt` | src/protocols/rdma_unreliable/packet_manager.h:119-130 | the k-th fragment of a buffer starts at k sizes and is full except for the last |
| `Fragmentation.CutAllGather` | src/protocols/rdma_unreliable/packet_manager.h:119-130 | the fragments of any buffers, read in order, are the buffers' bytes |
| `Fragmentation.CutAllLengths` | src/protocols/rdma_unreliable/packet_manager.h:119-130 | lists of equal lengths are cut into fragments of equal lengths |
| `Fragmentation.EmptyCut` | src/protocols/rdma_unreliable/packet_manager.h:119-141 | the empty fragments are those of the empty buffers, one each |
| `Fragmentation.CutAllCount` | src/protocols/rdma_unreliable/packet_manager.h:132-141 | a push makes the counted number of fragments plus one per empty buffer |
| `Fragmentation.EmptyBuffersZeroIff` | src/protocols/rdma_unreliable/packet_manager.h:132-141 | the count is exact if and only if no buffer is empty |
| `Fragmentation.SecondaryQueue.constructor` | src/protocols/rdma_unreliable/packet_manager.h:114-115 | an empty queue |
| `Fragmentation.SecondaryQueue.HasRemainingFragment` | src/protocols/rdma_unreliable/packet_manager.h:117 | true exactly when some fragment remains |
| `Fragmentation.SecondaryQueue.PopFragment` | src/protocols/rdma_unreliable/packet_manager.h:119-130 | removes and returns the first remaining fragment; a null buffer when none remains |
| `Fragmentation.SecondaryQueue.Push` | src/protocols/rdma_unreliable/packet_manager.h:132-141 | appends the fragments of the buffers and returns the counts before and after |
| `SendRing.FillKeeps` | src/protocols/rdma_unreliable/packet_manager.cpp:297-314 | with the window below the capacity, filling keeps every live index in its slot and fills up to the window, the pool or the end |
| `SendRing.FullWindowOverwrites` | src/protocols/rdma_unreliable/packet_manager.cpp:263 | with the window equal to the capacity, which the assertion allows, filling overwrites the oldest live packet |
| `SendRing.FillConserves` | src/protocols/rdma_unreliable/packet_manager.cpp:297-314 | popped and remaining fragments add up to the pushed ones, less one refused fragment when the fill fails |
| `SendRing.FillOwns` | src/protocols/rdma_unreliable/packet_manager.cpp:301-312 | filling never lets one packet buffer serve two slots, or a slot and the free list |
| `SendRing.PushFailsIff` | src/protocols/rdma_unreliable/packet_manager.cpp:276-314 | with room in window and pool a push fails if and only if a listed buffer is null with a positive length; then everything before its first fragment is in the ring and everything behind it stays queued |
| `SendRing.FailedPushGoesOn` | src/protocols/rdma_unreliable/packet_manager.cpp:297-314 | the next fill sends what a failed push left queued, each fragment at the index before its own |
| `SendRing.NullBufferExample` | src/protocols/rdma_unreliable/packet_manager.cpp:33-54 | a null buffer and another one: the push fails and the other buffer is sent all the same |
| `SendQueues.SendQueue.constructor` | src/protocols/rdma_unreliable/packet_manager.cpp:253-265 | an empty ring |
| `SendQueues.SendQueue.FillPrimaryQueue` | src/protocols/rdma_unreliable/packet_manager.cpp:297-314 | the loop, in place, is Fill |
| `SendQueues.SendQueue.Push` | src/protocols/rdma_unreliable/packet_manager.cpp:276-281 | appends the fragments, fills, and returns the 24 low bits of the total count |
| `SendQueues.SendQueue.MarkCompleted` | src/protocols/rdma_unreliable/packet_manager.cpp:283-295 | moves the tail as AckTail says and fills |
| `SendQueues.LoadEntry` | src/protocols/rdma_unreliable/packet_manager.cpp:301-312 | one turn of the filling loop, in place: a packet is allocated if the slot has none, and the next fragment stored |
| `SendQueues.MinTailIsLeast` | src/protocols/rdma_unreliable/packet_manager.cpp:425-431 | the slowest tail is the least and is one of them |
| `SendQueues.McastSendQueue.constructor` | src/protocols/rdma_unreliable/packet_manager.cpp:332-346 | an empty ring with every tail at zero |
| `SendQueues.McastSendQueue.GetMinTailIndex` | src/protocols/rdma_unreliable/packet_manager.cpp:425-431 | the loop computes the least tail |
| `SendQueues.McastSendQueue.FillPrimaryQueue` | src/protocols/rdma_unreliable/packet_manager.cpp:390-407 | the loop, in place, is Fill above the least tail |
| `SendQueues.McastSendQueue.Push` | src/protocols/rdma_unreliable/packet_manager.cpp:357-363 | appends the fragments, fills, and returns the 24 low bits of the total count |
| `SendQueues.McastSendQueue.MarkCompleted` | src/protocols/rdma_unreliable/packet_manager.cpp:365-382 | only the given replica's tail moves, as AckTail says; a bad index is an error that changes nothing |
| `SendQueues.McastSendQueue.GetAckSN` | src/protocols/rdma_unreliable/packet_manager.cpp:384-388 | a replica's tail, or the least one for an index out of range |
| `ReceiveRing.MarkKeeps` | src/protocols/rdma_unreliable/packet_manager.cpp:455-482 | a recognisable packet is accepted exactly when it fits the window and is awaited; then it alone becomes accepted and the tail moves over every accepted index |
| `ReceiveRing.MarkDelivers` | src/protocols/rdma_unreliable/packet_manager.cpp:465-475 | the accepted payload is what is then stored for its index, and all earlier contents stay |
| `ReceiveRing.PostKeeps` | src/protocols/rdma_unreliable/packet_manager.cpp:484-495 | posting fills the window without touching what was accepted |
| `ReceiveRing.DrainKeeps` | src/protocols/rdma_unreliable/packet_manager.cpp:476-480 | the tail ends at the first index not accepted |
| `ReceiveQueues.ReceiveQueue.constructor` | src/protocols/rdma_unreliable/packet_manager.cpp:433-445 | an empty queue |
| `ReceiveQueues.ReceiveQueue.FillPrimaryQueue` | src/protocols/rdma_unreliable/packet_manager.cpp:484-495 | the loop, in place, is Post |
| `ReceiveQueues.ReceiveQueue.Push` | src/protocols/rdma_unreliable/packet_manager.cpp:447-453 | appends the fragments and posts |
| `ReceiveQueues.ReceiveQueue.InWindow` | src/protocols/rdma_unreliable/packet_manager.cpp:457-463 | the window test is Admits |
| `ReceiveQueues.ReceiveQueue.MarkCompleted` | src/protocols/rdma_unreliable/packet_manager.cpp:455-482 | in place, including the copy into memory, is Mark; a length mismatch aborts |
| `ReceiveQueues.CopyIn` | src/protocols/rdma_unreliable/packet_manager.cpp:472 | copies the payload to its destination and changes no other byte |
| `Packets.WireRoundTrip` | src/protocols/rdma_unreliable/packet_manager.cpp:64-182 | serialize, drop a zero immediate, prepend a routing header and deserialize recovers every field modulo its width and the payload; a compacted packet loses window and timestamp |
| `Packets.WireLayout` | src/protocols/rdma_unreliable/packet_manager.h:27-42 | the immediate is one little-endian word of session (6 bits), command, compaction flag and sequence number (24 bits), the header one of window (16 bits) and timestamp (48 bits) |
| `Packets.HeaderRoundTrip` | src/protocols/rdma_unreliable/packet_manager.cpp:137-182 | encode and decode recover window and timestamp modulo 2^16 and 2^48 |
| `Packets.ImmRoundTrip` | src/protocols/common/rdma_ud_endpoint_store.cpp:173-174 | the immediate word is recovered although a zero one is not transmitted |
| `Packets.Serialize` | src/protocols/rdma_unreliable/packet_manager.cpp:83-107 | the header is written in place, and nothing else; the slices cover the header and the payload, in one piece without attached data; a null or receive buffer is refused |
| `Packets.FragmentFits` | src/protocols/rdma_unreliable/packet_manager.cpp:262 | every fragment with both headers fits a buffer of one mtu |
| `Packets.RoundTripTimeIff` | src/protocols/rdma_unreliable/context.cpp:367 | the round-trip time is exact if and only if it is under 2^48 |
| `PacketPool.PacketBufferPool.constructor` | src/protocols/rdma_unreliable/packet_manager.cpp:214-218 | the free list links every slot once |
| `PacketPool.PacketBufferPool.AllocatePacket` | src/protocols/rdma_unreliable/packet_manager.cpp:230-239 | returns a slot that is not live and fails only when the free list is empty |
| `PacketPool.PacketBufferPool.FreePacket` | src/protocols/rdma_unreliable/packet_manager.cpp:241-251 | puts a live slot back in front of the list |
| `PacketPool.PacketBufferPool.OverwriteHeader` | src/protocols/rdma_unreliable/packet_manager.cpp:137-159 | a header written into a live slot leaves the free list intact, although link and header share the bytes |
| `PacketPool.ExhaustedIff` | src/protocols/rdma_unreliable/packet_manager.cpp:230-239 | the free list is empty if and only if every slot is live |
| `Contexts.Context.constructor` | src/protocols/rdma_unreliable/context.h:79-98 | a fresh session |
| `Contexts.Context.SendDataPackets` | src/protocols/rdma_unreliable/context.cpp:229-298 | the pass, in place, is SendPass; of the session only the queue's window and the timestamps change, because the session is copied |
| `Contexts.Context.SendRange` | src/protocols/rdma_unreliable/context.cpp:242-286 | the loop with its early exit is Burst |
| `Contexts.Context.SendAckPackets` | src/protocols/rdma_unreliable/context.cpp:300-334 | sends one acknowledgement with max(head - tail, 8) as window, the low 24 bits of the tail and the newest timestamp, when one is owed and none is under way, and none otherwise |
| `Contexts.Context.HandleAck` | src/protocols/rdma_unreliable/context.cpp:364-372 | in place, is OnAck |
| `Contexts.Context.HandleData` | src/protocols/rdma_unreliable/context.cpp:357-363 | in place, is OnData |
| `Contexts.Context.UpdateRTO` | src/protocols/rdma_unreliable/context.cpp:383-396 | in place, is UpdateRto, and weighs the sample as section 2 of RFC 6298 says |
| `Contexts.Context.UpdateWndOnSuccess` | src/protocols/rdma_unreliable/context.cpp:398-416 | in place, is OnSuccess, and sets the queue's window to cwnd, both it and the capacity cut to 16 bits |
| `Contexts.Context.Send` | src/protocols/rdma_unreliable/context.cpp:91-111 | a new task number, remembered with the end of its fragments; -1 and no task if a buffer is refused |
| `Contexts.Context.Receive` | src/protocols/rdma_unreliable/context.cpp:113-133 | a new task number, remembered with the end of its fragments |
| `Contexts.Context.FreeTask` | src/protocols/rdma_unreliable/context.cpp:156-160 | forgets a known task and no other; an unknown one is an error |
| `Contexts.Context.GetStatus` | src/protocols/rdma_unreliable/context.cpp:135-154 | unknown exactly for unknown tasks; success exactly when the 24-bit comparison says so |
| `McastContexts.McastContext.constructor` | src/protocols/rdma_unreliable/context_mcast.h:93-127 | a fresh multicast sender |
| `McastContexts.McastContext.SendDataPackets` | src/protocols/rdma_unreliable/context_mcast.cpp:359-417 | the pass, in place, is Sweep from the slowest tail to the head |
| `McastContexts.McastContext.SendRange` | src/protocols/rdma_unreliable/context_mcast.cpp:367-408 | the loop, which passes over packets whose timer still runs, is Sweep |
| `McastContexts.McastContext.HandleAck` | src/protocols/rdma_unreliable/context_mcast.cpp:493-503 | in place, is Replied |
| `McastContexts.McastContext.UpdateRTO` | src/protocols/rdma_unreliable/context_mcast.cpp:520-533 | in place, is UpdateRto with the multicast bounds, and weighs the sample as section 2 of RFC 6298 says |
| `McastContexts.McastContext.UpdateWindow` | src/protocols/rdma_unreliable/context_mcast.cpp:535-547 | in place, is OnSuccess |
| `Control.OnSuccessExact` | src/protocols/rdma_unreliable/context.cpp:398-416 | with room in incr no 32-bit operation overflows and the new window is between min(old, rwnd) and rwnd |
| `Control.CwndOverRun` | src/protocols/rdma_unreliable/context.cpp:398-416 | over any n acknowledgements with n growths and one mtu within 2^32: no overflow, 1 <= cwnd <= rwnd, never below min(old, rwnd) |
| `Control.CwndZeroIff` | src/protocols/rdma_unreliable/context.cpp:405-412 | an acknowledgement makes the window zero if and only if it pushes incr, in congestion avoidance, into the last mtu - 1 values of 32 bits |
| `Control.CaIncrGrows` | src/protocols/rdma_unreliable/context.cpp:405-406 | in congestion avoidance incr always grows, above mtu^2 by exactly mtu / 16, and so never jumps over those values |
| `Control.WindowCloses` | src/protocols/rdma_unreliable/context.cpp:398-416 | with mtu >= 16, every sequence of 2^32 acknowledgements with advertised windows of at least two makes the window zero on the way |
| `Control.ZeroReopens` | src/protocols/rdma_unreliable/context.cpp:401-403 | the next acknowledgement opens a window of zero to one |
| `Control.WindowGrows` | src/protocols/rdma_unreliable/context.cpp:398-416 | without overflow, one acknowledgement in congestion avoidance adds mtu^2 / incr and mtu / 16 to incr, rounded down, and makes cwnd incr / mtu, rounded up, once that is at least one more; in slow start it adds one and one mtu; never above the advertised window |
| `Control.BackoffsHalve` | src/protocols/rdma_unreliable/context.cpp:251-255 | k resent packets halve k times what the window has above four, rounded down; a smaller window becomes four |
| `Endpoint.BurstWindow` | src/protocols/rdma_unreliable/context.cpp:251-256 | a pass sets the queue's window by exactly as many back-offs as it resends packets, and leaves it alone if it resends none |
| `Control.EstimatesWeigh` | src/protocols/rdma_unreliable/context.cpp:383-396 | every sample of every sequence: the first sets mean and half of it as variation; a later one counts for an eighth of the mean and its distance from the old mean for a quarter of the variation, rounded down, with a mean of at least one; the timeout is the mean and four variations, clamped, for any bounds |
| `Control.WeighsOnce` | src/protocols/rdma_unreliable/context.cpp:383-396 | which determines the estimator completely |
| `Control.RttStaysInRange` | src/protocols/rdma_unreliable/context.cpp:383-396 | for any samples in [m, M] the mean stays in [m, M], the variation at most M and the timeout within its bounds |
| `Control.SettlesIff` | src/protocols/rdma_unreliable/context.cpp:383-396 | on a constant stream the estimator settles at the clamped sample with no variation left if and only if it starts fresh or at or above the sample |
| `Control.MeanStaysBelow` | src/protocols/rdma_unreliable/context.cpp:386-393 | a mean below a constant sample never reaches it, because of the rounding down |
| `Spinlock.ExclusionIff` | src/concurrency.h:48-97 | for n < 2^16 threads: in every state of every interleaving a writer excludes every other writer and every reader, if and only if n <= 2^15 |
| `Spinlock.LosesTickets` | src/concurrency.h:88-95 | any number of tickets below the number of threads can be lost, by a shared lock whose load and swap lie 2^16 writes apart |
| `Spinlock.AlwaysRoomy` | src/concurrency.h:48-97 | with at most 2^15 threads, threads and lost tickets together always fit 16 bits |
| `Spinlock.CountersTell` | src/concurrency.h:48-97 | in every state of every interleaving in which threads and lost tickets fit 16 bits, read = write + readers and users = write + readers + writers + waiters + lost tickets, modulo 2^16 |
| `Spinlock.MutualExclusion` | src/concurrency.h:48-97 | in every such state a writer excludes every other writer and every reader |
| `Spinlock.TicketOrder` | src/concurrency.h:56-61 | in every such state aggressive writers wait in the order they drew and enter only from the front |
| `Spinlock.UnlockIsAtomic` | src/concurrency.h:74-80 | in every such state the load and the 32-bit store of unlock add one to write and read and keep every ticket drawn in between |
| `Spinlock.AvailableIff` | src/concurrency.h:48-61 | in every such state that nobody holds, somebody can take the lock if and only if no ticket is lost |
| `Spinlock.SharedIff` | src/concurrency.h:88-95 | in every such state, an undisturbed tryLockShared makes its thread a reader if and only if nobody writes, nobody waits and no ticket is lost, however many read; it loses no ticket |
| `Spinlock.TryIff` | src/concurrency.h:48-54 | in every such state, an undisturbed tryLock makes its thread the writer if and only if nobody reads, writes or waits and no ticket is lost |
| `Spinlock.EnterIff` | src/concurrency.h:56-61 | in every such state, a waiting thread gets the lock if and only if it is first in line, nobody reads or writes and no ticket is lost |
| `Spinlock.AllRead` | src/concurrency.h:88-95 | from the initial state some interleaving has all threads read at the same time |
| `Spinlock.LeaveExact` | src/concurrency.h:69-97 | a downgrade makes the writer a reader; unlock and unlockShared make their thread idle; nobody else is touched |
| `Spinlock.LostIffStale` | src/concurrency.h:88-95 | a ticket is lost by a step if and only if it is a shared lock taken on a load that saw the lock in use; read then advanced at least 2^16 times since that load |
| `Spinlock.LostForever` | src/concurrency.h:48-97 | after a lost ticket, as long as threads and lost tickets fit 16 bits, nobody ever takes the lock again in any continuation |
| `Spinlock.StepKeeps` | src/concurrency.h:48-97 | every instruction of every operation keeps the invariant as long as threads and lost tickets fit 16 bits |
| `RequestCaches.RequestCache.constructor` | src/protocols/common/rdma_endpoint.h:27-29 | an empty cache |
| `RequestCaches.RequestCache.Allocate` | src/protocols/common/rdma_endpoint.h:39-49 | a blank request nobody has: the oldest kept one, or a new one when none is kept |
| `RequestCaches.RequestCache.Deallocate` | src/protocols/common/rdma_endpoint.h:51-59 | the request is kept as the newest, or deleted when 4096 are kept; made - freed = in use + kept throughout |
| `RequestCaches.RequestCache.Destroy` | src/protocols/common/rdma_endpoint.h:31-37 | deletes exactly what is kept, so that made - freed is the number still in use |
| `RequestCaches.KeptPush` | src/protocols/common/rdma_endpoint.h:57-58 | storing behind the newest keeps all others, as long as the ring is not full |
| `Controllers.FindIff` | src/protocols/rdma_unreliable/controller.cpp:212-221 | an acknowledgement is routed to a place if and only if the node's name occurs there and nowhere earlier in the iteration |
| `Controllers.SharedReplicaExample` | src/protocols/rdma_unreliable/controller.cpp:212-221 | a name listed in two groups is routed to the earlier one |
| `Controllers.FindComplete` | src/protocols/rdma_unreliable/controller.cpp:212-221 | the search misses no occurrence and finds none after another |
| `Controllers.FindUnique` | src/protocols/rdma_unreliable/controller.cpp:208-223 | a name listed once is found there |
| `Controllers.Controller.constructor` | src/protocols/rdma_unreliable/controller.cpp:51 | no peers and no groups |
| `Controllers.Controller.RegisterNode` | src/protocols/rdma_unreliable/controller.cpp:151-161 | a number no peer or group has had, under the name and exactly the given addresses |
| `Controllers.Controller.JoinMulticast` | src/protocols/rdma_unreliable/controller.cpp:73-87 | a number of its own for a new group; an error that changes nothing for a joined one, and one that uses up a number when the device context cannot be made |
| `Controllers.Controller.FindSession` | src/protocols/rdma_unreliable/controller.cpp:163-181 | node number and session of a known address, -1 otherwise; on a bonded device by queue pair number alone, where two matches end the process |
| `Controllers.Controller.RedirectMulticast` | src/protocols/rdma_unreliable/controller.cpp:208-223 | session number of the group with the session's low 8 bits, and the index of the first occurrence of the node's name; other sessions unchanged, with the size of the last group visited as index; an unknown node gets at most an empty name |

## Left out

- Queue pairs, completion queues, connection setup, the RC protocol and the `RapidTransfer` facade: foreign calls and plumbing; sending, delivering and completing are steps of the model.
- The session map of a context: one session per context object; what the other sessions do to the packet pool and the round-trip estimate is the steps `ChangePool` and `ChangeRtt`.
- Session setup in `send` and `receive` (looking up the peer, allocating the acknowledgement packet): sessions are active from the start.
- A packet header read by the device after its ring slot was reused, and concurrent calls into the queues: a transmission is a snapshot, and there is one caller per context.
- Indices beyond 2^64 and request counts beyond 2^64: queue indices are unbounded integers in the model.
- Runs with a refused (null) buffer: the state machines push only buffers that `setPayload` accepts; what a refused one does to a queue is in `SendRing`.
- Completion of a whole multicast transfer by a schedule: `HeardIff` says when one replica can be heard again and `Collect` gathers the answers owed; the two are not put together into one schedule.
- Replica lists that are changed after the first send: a group's replicas are fixed when the run begins.
- The random choice of a queue pair and memory keys: they do not affect delivery.
- Memory ordering weaker than sequential consistency in `RWSpinlock`, and `TicketLock`, which would only repeat the ticket argument.
- UnicastProgress.Progress: gives a schedule that exists, not a bound on real time, since the network is free to lose everything; the clock must not run out of its 64 bits on the way.
- UnicastProgress.CompletesIff: is exact with nothing under way; a frame or acknowledgement under way may rescue a silent sender, and which one does is not characterised.
- McastContexts.McastContext.SendDataPackets: asks for at least one replica and a slowest tail within the ring; without replicas the source starts at 2^64 - 1 and walks around to the head, which is not modelled.
- McastContexts.McastContext.SendRange: asks for a range that does not wrap around 2^64, for the same reason.
- Fragmentation.SecondaryQueue.Push: does not model a 64-bit overflow of the fragment count.
- `leaveMulticast`, statistics counters and logging: they would add only easy members.
