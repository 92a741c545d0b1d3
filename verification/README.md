# Verified model of the C lesson programs

Nine programs of the repository are modelled here in Dafny, and what each of them
is supposed to keep, deliver or compute is proved for all inputs, all sizes and,
where threads or processes are involved, all interleavings. Compile-time sizes
(`QUEUE_SIZE`, `MAX_CLIENTS`, `MAX_DRIVERS`, `MAX_HISTORY`, `N`, `S`) are
parameters of the theorems. `dafny verify dfyconfig.toml` checks everything.

| file | program | form |
|---|---|---|
| `ClientQueue.dfy` | ring buffer of `SocketsSS/TaskThree/server.c` | class over an array, refining a bounded queue |
| `WorkerPool.dfy` | acceptor, workers, mutex and condition variables of the same program | transition system, one step for each access to shared memory |
| `Dispatcher.dfy` | driver table of `TaxiManagement/taxi.c` | class over an array; runs of spawns and reapings |
| `DriverProtocol.dfy` | dispatcher and driver of `taxi.c` on their two pipes | transition system over byte pipes and a clock |
| `Checksum.dfy`, `Frame.dfy` | checksums and frame of `SocketsRawPacket/Client/client.c` | methods on byte buffers against sums and folds |
| `Spiral.dfy` | `Array/arr4.c` | methods filling a matrix, against a recursive spiral |
| `Shops.dfy` | `Streams/` | transition system, one lock for each shop |
| `Assignment.dfy` | `SocketsSS/TaskTwo/server.c` | transition system, one lock for each worker |
| `EchoTable.dfy` | `SocketsEcho/server.c` | class over an array, refining a map |
| `Directory.dfy` | `AbonentList/` | doubly linked nodes on the heap, refining a sequence |
| `Tokenizer.dfy` | `Pipe/BushFix/` | methods on one NUL-terminated buffer |
| `Text.dfy` | C strings, `%d` out and in | functions, shared by the files above |

How the programs become models:

* **Threads.** A program counter and the thread's local variables say where a thread
  stands. Mutexes, sleeping on a condition variable, signals and spurious wakeups are
  steps with the effect POSIX gives them. A run is any sequence of enabled steps from
  an initial state, so a theorem about `Run` is a theorem about every interleaving.
  Fields described as history record what happened; no step depends on them.
* **The outside world.** What `accept`, `read`, `fork`, `pipe`, `waitpid`, `rand` and the
  clock return is a parameter of the step or method. Connections have ids that are
  never reused, because descriptors are.
* **The ring index.** The source writes `(i + 1) % QUEUE_SIZE`. The class computes
  exactly that; the transition system writes `Wrap(i, 1, n)`, and `NextIsWrap` proves
  the two equal.
* **Text and pipes.** Buffers are sequences of characters with NULs in them; what a
  program reads out of one is `CStr`. That a pipe never holds more than one message, and
  that a `read` never cuts one, is proved, not built in.

Three findings of the proofs:

* `cleanup_zombies` matches on the pid alone. That is right over all runs because
  `create_driver` takes the lowest free slot. `SafeSlotIff` says which free slots would do,
  decided before the fork: those with no inactive slot below them whose pid the kernel
  could issue again. `LowestFreeIsSafe` is the instance the program relies on, and
  `HigherSlotGoesWrong` is a run in which the next slot up is not safe.
* The two fixed folds of `ip_checksum` are not the fold loop. `SafeLengthIff`: the routine
  meets the definition on all buffers of n bytes if and only if n is at most 131076. On the
  level of sums, they differ first at 0x10000FFFF, and exactly when the second fold leaves
  a carry.
* In TaskTwo a client can be refused while a worker is free. `RefusedWhileFreeIff`: a
  client can be refused at all, and with a worker free, exactly if main accepts it when all
  flags are set and no worker is about to clear one. What the refusal does say is that every
  worker was busy when the scan began, and it is up to date exactly when no worker cleared
  its flag since.

## Model

| member | source | states |
|---|---|---|
| `ClientQueue.NextIsWrap` | SocketsSS/TaskThree/server.c:52 | the increment modulo the size is one step round the ring, for every size |
| `ClientQueue.RearIsFree` | SocketsSS/TaskThree/server.c:49-51 | storing at the rear of a queue that is not full changes no waiting entry |
| `ClientQueue.CountingInAppends` | SocketsSS/TaskThree/server.c:52-53 | moving the rear and counting appends exactly the stored entry |
| `ClientQueue.AdvancingDropsOldest` | SocketsSS/TaskThree/server.c:78-82 | moving the front drops exactly the oldest entry, whatever the wrap |
| `ClientQueue.AdvancingKeepsRear` | SocketsSS/TaskThree/server.c:81-82 | rear = (front + count) mod size survives a dequeue |
| `ClientQueue.WaitingRoom.constructor` | SocketsSS/TaskThree/server.c:35-38 | the queue starts empty with all its slots |
| `ClientQueue.WaitingRoom.Enqueue` | SocketsSS/TaskThree/server.c:47-63 | appends the client with its message, or leaves everything alone exactly when the queue is full |
| `ClientQueue.WaitingRoom.Dequeue` | SocketsSS/TaskThree/server.c:78-85 | hands out the oldest client with its own message and keeps the rest in order |
| `WorkerPool.StepKeepsInv` | SocketsSS/TaskThree/server.c:43-141 | every enabled step of any thread or of the environment keeps the whole invariant |
| `WorkerPool.RunKeepsInv` | SocketsSS/TaskThree/server.c:230-250 | so every state of every run has it |
| `WorkerPool.EveryClientIsInOnePlace` | SocketsSS/TaskThree/server.c:107-132 | an accepted client is with the acceptor, queued, held by one worker, served or rejected, exactly one of them; at most one reply, at most one close, the reply first; answered according to the message it sent |
| `WorkerPool.AnswersFollowMessages` | SocketsSS/TaskThree/server.c:117-130 | over every run a served client got the time if its message begins with the four letters TIME and the error if not; a rejected one was told the queue is full |
| `WorkerPool.MessagesAreThoseRead` | SocketsSS/TaskThree/server.c:232-249 | the clients accepted are those that accept returned, and the message kept for one was read from its own connection |
| `WorkerPool.FreeBetweenClients` | SocketsSS/TaskThree/server.c:132-138 | after closing a client a worker does not wait for the next before its is_busy has been clear |
| `WorkerPool.HeldIsNotFinished` | SocketsSS/TaskThree/server.c:116-132 | a client a worker holds is with no other thread and not yet closed |
| `WorkerPool.StepKeepsConserved` | SocketsSS/TaskThree/server.c:43-141 | no step loses a client or puts it in two places |
| `WorkerPool.StepKeepsReplies` | SocketsSS/TaskThree/server.c:117-132 | sends and closes of a client stay in balance, the close owed after a send counted |
| `WorkerPool.FirstInFirstOut` | SocketsSS/TaskThree/server.c:47-53 | dequeued then waiting is what was enqueued, at every moment and for any capacity; "Queue full" is said only while it is full; entries pair a client with its own message |
| `WorkerPool.MainKeepsFifo` | SocketsSS/TaskThree/server.c:49-53 | the acceptor's half-done stores do not disturb the waiting entries |
| `WorkerPool.MainQueue` | SocketsSS/TaskThree/server.c:49-53 | the waiting entries change in one of the acceptor's steps only, by the entry it counts in |
| `WorkerPool.WorkerQueue` | SocketsSS/TaskThree/server.c:78-82 | a worker takes out exactly what it read at the front, and no other worker step touches the queue |
| `WorkerPool.NoWakeupIsLost` | SocketsSS/TaskThree/server.c:73-76 | nobody sleeps, or as many workers are awake as clients wait; a waiting client never faces only sleepers |
| `WorkerPool.MainKeepsWakeups` | SocketsSS/TaskThree/server.c:53-55 | one signal for each entry is enough, even when it wakes nobody |
| `WorkerPool.SignalsFollowEntries` | SocketsSS/TaskThree/server.c:53-55 | every entry counted in is followed by a signal, and a signal with a sleeper about wakes one |
| `WorkerPool.WorkerKeepsWakeups` | SocketsSS/TaskThree/server.c:73-82 | no step of a worker loses a wakeup |
| `WorkerPool.FallingAsleepKeepsWakeups` | SocketsSS/TaskThree/server.c:73-76 | a worker goes to sleep only on an empty queue |
| `WorkerPool.OwnFlagNeverBlocks` | SocketsSS/TaskThree/server.c:99-105 | no worker ever waits in its own is_busy loop or for its own mutex |
| `WorkerPool.InternalStepsEnd` | SocketsSS/TaskThree/server.c:96-141 | from any state of a run the threads take only a bounded number of steps before the environment has to act |
| `WorkerPool.InternalStepDecreases` | SocketsSS/TaskThree/server.c:96-141 | each such step lowers the bound |
| `WorkerPool.QuiescentMeansServed` | SocketsSS/TaskThree/server.c:73-132 | when no thread can move, there is no deadlock: the queue is empty, all workers sleep and every client but the one being read has its one reply and one close |
| `WorkerPool.MainIsIdle` | SocketsSS/TaskThree/server.c:45-65 | nobody is ever stuck with the queue mutex |
| `Dispatcher.LowestFree` | TaxiManagement/taxi.c:171-179 | the first inactive slot, or none |
| `Dispatcher.FirstWithPid` | TaxiManagement/taxi.c:302-311 | the first slot with the pid, active or not |
| `Dispatcher.TaxiTable.CreateDriver` | TaxiManagement/taxi.c:167-233 | the new driver goes into the lowest free slot, or the next one; nowhere exactly when all slots up to the maximum are active; a failed pipe or fork keeps the slot inactive |
| `Dispatcher.CreateStartsIff` | TaxiManagement/taxi.c:171-229 | a forked driver is in the table with its own pid, write and read descriptor if and only if there was a slot never used or an inactive one; otherwise nothing changes, and active slots never do |
| `Dispatcher.CreateIsPlacing` | TaxiManagement/taxi.c:167-233 | what the method does to the table is what the run model does |
| `Dispatcher.ActiveSlotsRemember` | TaxiManagement/taxi.c:226-229 | in every run an active slot holds the pid and the two descriptors that one fork and its pipes gave, for a driver not reaped since |
| `Dispatcher.TaxiTable.ReapOne` | TaxiManagement/taxi.c:302-311 | deactivates the first slot with the pid and closes its two descriptors |
| `Dispatcher.TaxiTable.CleanupZombies` | TaxiManagement/taxi.c:294-314 | does so for each dead child in turn |
| `Dispatcher.TaxiTable.FindActive` | TaxiManagement/taxi.c:35-48 | finds an active slot with the pid, or says truly that there is none |
| `Dispatcher.ReapingIsRight` | TaxiManagement/taxi.c:300-313 | over all runs the pid match is the live slot, the only active one with that pid; its two descriptors were open and are closed, nothing else changes, and no descriptor is ever closed twice |
| `Dispatcher.ReapFindsLiveSlot` | TaxiManagement/taxi.c:304 | the match on the pid alone finds the active slot of a living child |
| `Dispatcher.ReapIsExact` | TaxiManagement/taxi.c:304-310 | the whole effect of a reaping on table, children and descriptors |
| `Dispatcher.ForkKeepsPids` | TaxiManagement/taxi.c:225-229 | a new driver in a free slot that is clean below keeps active pids distinct and no stale copy of a live pid below it |
| `Dispatcher.FailureKeepsPids` | TaxiManagement/taxi.c:198-210 | a failed pipe or fork keeps them too |
| `Dispatcher.CreateKeepsFds` | TaxiManagement/taxi.c:193-229 | active slots hold distinct open descriptors, none of them leaked |
| `Dispatcher.RunKeepsInv` | TaxiManagement/taxi.c:167-314 | every possible run keeps the pid and descriptor invariants |
| `Dispatcher.TableNeverOverflows` | TaxiManagement/taxi.c:184-190 | no run of spawns and reapings uses more than the maximum of slots |
| `Dispatcher.CleanupIsReaping` | TaxiManagement/taxi.c:300-313 | what the method does to the table and closes is what the reapings of the run model do |
| `Dispatcher.DescriptorsConserved` | TaxiManagement/taxi.c:193-228 | open descriptors are two for each active slot, and two or four for each spawn that failed half-way |
| `Dispatcher.SafeSlotIff` | TaxiManagement/taxi.c:171-179 | whatever pid and descriptors the kernel may give a driver put into free slot i, its reaping will be exact, if and only if no inactive slot below i carries a pid that is free to be issued again; a test create_driver could make before it forks |
| `Dispatcher.LowestFreeIsSafe` | TaxiManagement/taxi.c:171-189 | in every run the slot create_driver takes is such a slot |
| `Dispatcher.CleanSlotIsSafe` | TaxiManagement/taxi.c:225-229 | a driver put into a slot that is clean below is reaped through its own slot, with its own descriptors |
| `Dispatcher.StalePidMisleads` | TaxiManagement/taxi.c:304-306 | a stale pid below can be issued again, and then the reaping goes to the stale slot |
| `Dispatcher.PlaceKeepsInv` | TaxiManagement/taxi.c:193-229 | placing a driver, or failing to start one, in any free slot that is clean below keeps all invariants |
| `Dispatcher.TwoCameAndWentRun` | TaxiManagement/taxi.c:304-306 | reaped slots keep their pid |
| `Dispatcher.HigherSlotGoesWrong` | TaxiManagement/taxi.c:304-306 | a possible run after which the next free slot up is not safe and leaves a dead driver active |
| `DriverProtocol.TasksNeverOverlap` | TaxiManagement/taxi.c:81-157 | over every mix of commands, time-outs, delays and deaths each accepted task starts no earlier than any earlier one's end |
| `DriverProtocol.FreedWhenOver` | TaxiManagement/taxi.c:81-97 | each time round the loop the driver is busy afterwards if and only if an accepted task is still going on, and only then has its select a time-out: what is left of that task |
| `DriverProtocol.TimeoutIsPrompt` | TaxiManagement/taxi.c:93-100 | a busy driver's select times out at the end of its task, late by exactly the time between looking at the clock and entering select; a free driver's does not; and the driver is free then |
| `DriverProtocol.NextTaskIsTaken` | TaxiManagement/taxi.c:136-141 | a driver takes the next task, and says OK, unless the one before was going on when it last looked at the clock |
| `DriverProtocol.AnswersMatchCommands` | TaxiManagement/taxi.c:50-62 | the two pipes together hold at most one whole message, the outstanding command or an answer to it; every answer read fits its command, STATUS or TASK; and "Task sent" is reported for a task exactly when that driver took it on, whenever there is an answer |
| `DriverProtocol.SilenceMeansDead` | TaxiManagement/taxi.c:54-59 | "not responding" is said only of a driver that has ended |
| `DriverProtocol.AcceptedAsAsked` | TaxiManagement/taxi.c:133-141 | the accepted tasks are, in order and in duration, the tasks that were sent and granted |
| `DriverProtocol.EveryCommandIsAccounted` | TaxiManagement/taxi.c:51-62 | the commands sent are, in order, those finished and the outstanding one; a command to a driver already dead is the dispatcher's last |
| `DriverProtocol.ReadWholeMessage` | TaxiManagement/taxi.c:110-113 | reading takes a message out of the pipe whole, NUL included |
| `DriverProtocol.ScanTaskText` | TaxiManagement/taxi.c:134 | the number send_task prints is the number the driver scans, for every 32-bit int |
| `DriverProtocol.CommandTextShape` | TaxiManagement/taxi.c:115-131 | the prefix tests tell the two commands apart, and both fit |
| `DriverProtocol.HandleFits` | TaxiManagement/taxi.c:115-151 | the driver's answer fits the command: "OK" exactly when it takes the task on, "Available" to a STATUS when it is free, and when busy "Busy" with a number that reads as the seconds left of the last accepted task, 0 when it is over |
| `DriverProtocol.AnswerWithinSixSteps` | TaxiManagement/taxi.c:50-54 | while an answer is owed only the driver and the clock move, and it is there after at most six steps of the driver, however they are spread over time |
| `DriverProtocol.DriverNearsAnswer` | TaxiManagement/taxi.c:99-149 | while an answer is owed the driver can move, its select does not time out, and each step brings the answer nearer |
| `DriverProtocol.ReadIsNeverStuck` | TaxiManagement/taxi.c:54 | in every run the dispatcher's read without a time-out can go on, or the driver can |
| `DriverProtocol.ReceiveReads` | TaxiManagement/taxi.c:54-60 | the dispatcher reads the answer to its own command and leaves both pipes empty |
| `DriverProtocol.HandledKeepsTiming` | TaxiManagement/taxi.c:136-141 | a free driver's previous task is over when it accepts |
| `DriverProtocol.DriverKeepsTiming` | TaxiManagement/taxi.c:81-97 | a driver is freed only when its task is over, and the time-out is never set before that |
| `DriverProtocol.StepKeepsInv` | TaxiManagement/taxi.c:72-158 | lockstep, timing and the record of exchanges survive every step |
| `DriverProtocol.RunKeepsInv` | TaxiManagement/taxi.c:72-158 | so they hold in every state of every run |
| `Text.ScanDecimal` | TaxiManagement/taxi.c:241 | what "%d" writes "%d" reads back |
| `Checksum.FoldIsModulo` | SocketsRawPacket/Client/client.c:84-87 | the fold loop gives the sum modulo 65535, nonzero multiples as 0xFFFF |
| `Checksum.FoldTwiceIsFoldIff` | SocketsRawPacket/Client/client.c:33-36 | two folds equal the loop if and only if the second fold leaves no carry, for every sum an int-sized buffer can have |
| `Checksum.FoldTwiceAgreesBelow` | SocketsRawPacket/Client/client.c:33-36 | they agree for every sum below 0x10000FFFF |
| `Checksum.FoldTwiceFirstDiffers` | SocketsRawPacket/Client/client.c:33-36 | at 0x10000FFFF they differ, so the bound is tight |
| `Checksum.ShortcutIsExact` | SocketsRawPacket/Client/client.c:22-34 | the shortcut is exact for every buffer of up to 131076 bytes |
| `Checksum.SafeLengthIff` | SocketsRawPacket/Client/client.c:18-37 | two folds are enough for all buffers of n bytes if and only if n is at most 131076 |
| `Checksum.WorstSum` | SocketsRawPacket/Client/client.c:22-31 | the sum of a buffer of all-ones words, a one and zeros, the one that goes wrong at every greater length |
| `Checksum.FoldSwaps` | SocketsRawPacket/Client/client.c:22-34 | summing in the other byte order swaps the bytes of the folded sum (section 2(B) of RFC 1071) |
| `Checksum.StoredBytesAreByteOrderFree` | SocketsRawPacket/Client/client.c:18-37 | the bytes stored by the little-endian program are those of the big-endian computation, for even and odd lengths |
| `Checksum.StoringAdds` | SocketsRawPacket/Client/client.c:133 | storing a word in a zero field at an even offset adds it to the sum |
| `Checksum.CompletesIff` | SocketsRawPacket/Client/client.c:36 | which words bring a sum to 0xFFFF: the complement, and 0xFFFF in place of 0 |
| `Checksum.ReceiverAcceptsIff` | SocketsRawPacket/Client/client.c:145 | for any buffer with a zero check field the receiver's sum is 0xFFFF if and only if the field holds that word |
| `Checksum.IpChecksum` | SocketsRawPacket/Client/client.c:18-37 | the pointer loop and two folds compute the complement of the twice-folded native sum, even and odd lengths |
| `Checksum.SumBytes` | SocketsRawPacket/Client/client.c:20-31 | its pointer loop computes the native sum, an odd last byte included |
| `Checksum.Copy` | SocketsRawPacket/Client/client.c:65-70 | copies the bytes asked for and leaves the others |
| `Checksum.UdpChecksum` | SocketsRawPacket/Client/client.c:40-90 | covers pseudo-header, UDP header and data in that order, with the length in network order (RFC 768), for up to 1004 bytes of data |
| `Checksum.CoveredFields` | SocketsRawPacket/Client/client.c:58-70 | byte by byte: source, destination, zero, protocol 17, length in network order, UDP header, data |
| `Checksum.SumAndFold` | SocketsRawPacket/Client/client.c:72-89 | the indexing loop and the fold loop compute the complement of the folded native sum, and terminate |
| `Frame.IpHeader` | SocketsRawPacket/Client/client.c:121-132 | twenty bytes with a zero check field |
| `Frame.UdpHeader` | SocketsRawPacket/Client/client.c:137-141 | eight bytes with a zero check field |
| `Frame.PutCheck` | SocketsRawPacket/Client/client.c:133 | the assignment of the check field changes those two bytes only |
| `Frame.PutIp` | SocketsRawPacket/Client/client.c:121-133 | leaves the header with its checksum in place and nothing else changed |
| `Frame.PutUdp` | SocketsRawPacket/Client/client.c:137-145 | leaves the UDP header with its checksum, then the message |
| `Frame.BuildFrame` | SocketsRawPacket/Client/client.c:98-162 | the bytes handed to sendto are Ethernet header, IPv4 header, UDP header and message, for any message that fits |
| `Frame.FrameFields` | SocketsRawPacket/Client/client.c:109-144 | every field of the three headers at its place in the frame: MAC addresses, EtherType, version, lengths, identification, time to live, protocol, IP addresses, ports |
| `Frame.ReceiverAcceptsFrame` | SocketsRawPacket/Client/client.c:126-162 | a receiver of that frame accepts both checksums, and both length fields say what follows |
| `Spiral.AreaIsSquare` | Array/arr4.c:22 | the borders of an N by N square have N*N cells together |
| `Spiral.ValueThenPlace` | Array/arr4.c:22-51 | every cell has its own number in 1..N*N, for every N |
| `Spiral.PlaceThenValue` | Array/arr4.c:22-51 | every number in 1..N*N has a cell |
| `Spiral.ConsecutiveAreNeighbours` | Array/arr4.c:25-50 | consecutive numbers stand side by side, for odd and even N |
| `Spiral.ValueFromLayer` | Array/arr4.c:29-50 | after k passes what is left is the smaller spiral, counted on from there |
| `Spiral.Write` | Array/arr4.c:27 | one assignment stays in bounds and puts the next number where it belongs |
| `Spiral.FillLayer` | Array/arr4.c:24-50 | the four inner loops fill exactly one border, the last row or cell of odd N included |
| `Spiral.Fill` | Array/arr4.c:5-51 | the outer loop terminates; N*N writes, the j-th to the cell of j, and every cell is filled |
| `Spiral.FilledIsBijection` | Array/arr4.c:22-51 | the matrix left behind holds each of 1..N*N exactly once |
| `Spiral.FilledIsAWalk` | Array/arr4.c:22-51 | in it v and v + 1 are neighbours |
| `Shops.GoodsAreConserved` | Streams/pthread_shopper.c:13-34 | stock plus purchases, corrected for shoppers between their two writes, is the first stock plus 200 for each visit of the loader but the one it has not finished, in every interleaving |
| `Shops.ShopsAreBoughtOut` | Streams/pthread_shopper.c:10-48 | a shopper leaving a shop leaves no goods behind; one that ends a round unsatisfied has tried every shop, in order; and so has the loader |
| `Shops.TryFailsOnlyIfOccupied` | Streams/pthread_shopper.c:13-47 | whoever tries a shop gets in if and only if no other thread is inside, and goes on to the next one otherwise, the loader likewise |
| `Shops.RoundsEnd` | Streams/pthread_shopper.c:7-57 | nobody is held up: a shopper ends each round within 6S + 3 of its own steps and the loader within 5S + 1, whatever the others do |
| `Shops.ShopsAreExclusive` | Streams/pthread_shopper.c:13 | no two threads are ever inside one shop, the loader included |
| `Shops.PurchasesAreBounded` | Streams/pthread_shopper.c:7-57 | stock is 0 or at least 200; at most ceil(need/200) purchases; need was still positive before the last one; a shopper ends only when satisfied |
| `Shops.FortySevenAtMost` | Streams/creat_shoppers.c:7 | with the program's needs that is at most 47 |
| `Shops.ShopperConserves` | Streams/pthread_shopper.c:22-23 | between subtracting and emptying the goods are counted once, because the stock read is still there |
| `Shops.LoaderConserves` | Streams/pthread_loader.c:17 | the loader's read and write of the stock add exactly 200 |
| `Shops.LoaderKeepsLocals` | Streams/pthread_loader.c:12-22 | the loader never touches a shop a shopper is inside |
| `Shops.OwnLocal` | Streams/pthread_shopper.c:16-23 | inside a stocked shop a shopper takes exactly what is there and empties it |
| `Shops.StepKeepsInv` | Streams/pthread_shopper.c:7-57 | locks, locals, needs and conservation survive every step |
| `Shops.RunKeepsInv` | Streams/main.c:14-33 | so they hold in every state of every run |
| `Shops.GoneUpdate` | Streams/pthread_shopper.c:22-23 | what one shopper takes is all that changes in the total taken |
| `Shops.CreatShop` | Streams/creat_shop.c:5-7 | every shop starts with 900 to 1100 goods |
| `Shops.CreatShoppers` | Streams/creat_shoppers.c:5-7 | every shopper starts with a need of 9100 to 9300 |
| `Assignment.OneClientPerWorker` | SocketsSS/TaskTwo/server.c:132-142 | in every interleaving a worker marked busy is taken for exactly one client and a free one for none |
| `Assignment.OneReplyEach` | SocketsSS/TaskTwo/server.c:202-216 | no client is answered twice by main |
| `Assignment.ClientsGoWhereTold` | SocketsSS/TaskTwo/server.c:208-216 | whoever is on the way to a worker, with it or was there had been told that worker's endpoint; and a worker sends the time to exactly those whose request begins with TIME |
| `Assignment.ServedOnceWhereTold` | SocketsSS/TaskTwo/server.c:40-62 | a client told an endpoint is on its way, waits for the answer there or has had it, exactly one of them, and nobody else is |
| `Assignment.EveryConnectionIsClosed` | SocketsSS/TaskTwo/server.c:61-62 | main closes each connection it has answered, in order and before the next accept, and every worker each client it has answered |
| `Assignment.RequestsAreThoseRead` | SocketsSS/TaskTwo/server.c:48-53 | the request answered is the one read from that client |
| `Assignment.EndpointTellsWorker` | SocketsSS/TaskTwo/server.c:81 | the text sent for worker i names port 10101 + i |
| `Assignment.RefusalMeansAllBusy` | SocketsSS/TaskTwo/server.c:143 | a client is refused only if every worker was busy at the instant its scan began |
| `Assignment.FlagsAreSnapshots` | SocketsSS/TaskTwo/server.c:130-144 | the flags kept with a reply are those of the state in which the scan began |
| `Assignment.FlagsDuringScan` | SocketsSS/TaskTwo/server.c:65-67 | during a scan a flag is as it was at its start unless its worker has cleared it |
| `Assignment.SnapshotDuringScan` | SocketsSS/TaskTwo/server.c:130-144 | the snapshot stays that of the start of the scan |
| `Assignment.RefusalIsUpToDateIff` | SocketsSS/TaskTwo/server.c:202-206 | all workers are still busy at the refusal if and only if none cleared its flag since the scan began |
| `Assignment.RefusedWhileFreeIff` | SocketsSS/TaskTwo/server.c:130-144 | from any reachable state, with any number of workers: a client accepted now can be refused, and can be refused while a worker is free, if and only if all flags are set and no worker is inside its lock about to clear one |
| `Assignment.ScanNeverPasses` | SocketsSS/TaskTwo/server.c:134-141 | a scan does not get past a worker whose flag was clear, or was being cleared, when it began |
| `Assignment.TakenCanRefuse` | SocketsSS/TaskTwo/server.c:132-143 | the course of events that ends in a refusal with a worker free |
| `Assignment.RefusedWhileFreeHappens` | SocketsSS/TaskTwo/server.c:141-143 | and it does happen: a reachable state with one worker and two clients |
| `Assignment.LockHolderCanStep` | SocketsSS/TaskTwo/server.c:134 | when main waits for a lock, the worker holding it can go on |
| `Assignment.InternalStepsEnd` | SocketsSS/TaskTwo/server.c:130-218 | the threads take only a bounded number of steps before a client has to act |
| `Assignment.QuiescentMeansAnswered` | SocketsSS/TaskTwo/server.c:185-218 | there is no deadlock: when no thread can move, main is back in accept, all locks are free, every worker is idle or reads from its client, and every client accepted has its answer |
| `Assignment.MainKeepsCounted` | SocketsSS/TaskTwo/server.c:135-142 | only main takes a worker, and only a free one |
| `Assignment.WorkerKeepsCounted` | SocketsSS/TaskTwo/server.c:62-67 | a worker becomes free only when its client is closed |
| `Assignment.StepKeepsInv` | SocketsSS/TaskTwo/server.c:130-218 | every step keeps locks, counts and snapshots |
| `EchoTable.Find` | SocketsEcho/server.c:63-72 | the first entry with the address, or none |
| `EchoTable.History.FindClient` | SocketsEcho/server.c:63-72 | its index, or -1 |
| `EchoTable.History.AddClient` | SocketsEcho/server.c:75-86 | appends the client with number 1, or changes nothing when full |
| `EchoTable.History.RemoveClient` | SocketsEcho/server.c:89-102 | the entry is gone, the others stay in order, an unknown client changes nothing |
| `EchoTable.History.CloseGap` | SocketsEcho/server.c:97-101 | the shifting loop removes exactly one entry |
| `EchoTable.History.HandleMessage` | SocketsEcho/server.c:143-198 | one pass of the loop changes the table and answers as the table function does, truncation of the answer included, for every datagram of up to 1024 bytes that leaves a NUL in the buffer |
| `EchoTable.HandleRefinesMap` | SocketsEcho/server.c:160-192 | whatever arrives, the array does what a map keyed by (ip, port) does, within capacity and without duplicates |
| `EchoTable.WithoutIsRemoval` | SocketsEcho/server.c:97-101 | shifting removal is removal from the map |
| `EchoTable.OthersKeepRecordAndOrder` | SocketsEcho/server.c:97-101 | one client's message leaves the others' counters and order alone |
| `EchoTable.TableAgreesWithHistory` | SocketsEcho/server.c:141-198 | after any messages the table is determined by the history: who is in it and with which number |
| `EchoTable.RepliesFollowHistory` | SocketsEcho/server.c:187-192 | each reply carries 1 plus the number of that client's messages accepted since it last joined; "full" exactly when it is unknown and the table is full |
| `EchoTable.EchoIsWholeIff` | SocketsEcho/server.c:192 | the echo arrives whole if and only if text and number fit the buffer |
| `EchoTable.WhichTextLeaves` | SocketsEcho/server.c:160 | CLIENT_SHUTDOWN, and no other text, takes its sender off the table |
| `EchoTable.WhatIsSent` | SocketsEcho/server.c:176-196 | nothing to who leaves, "server history is full" to who is refused, and else text and number, cut to 1023 characters |
| `Directory.MyStrncpy` | AbonentList/add.c:6-14 | the target holds the source, cut to size - 1 characters, and is terminated |
| `Directory.StoredFields` | AbonentList/add.c:28-30 | the name holds the name, the second name the second name, the number the number, each the longest prefix that fits 9, 9 and 11 characters |
| `Directory.MyStrcmp` | AbonentList/search.c:4-20 | 0 if and only if neither pointer is NULL and the two C strings are equal |
| `Directory.Abonent.constructor` | AbonentList/add.c:18-36 | the new node holds the three texts, cut, and is unlinked |
| `Directory.FirstMatch` | AbonentList/remove.c:29-38 | the first entry with both names, or none |
| `Directory.Abonents.constructor` | AbonentList/main.c:13-16 | the directory starts empty |
| `Directory.Abonents.Add` | AbonentList/add.c:57-73 | a new node at the end of a well-formed list, or nothing when memory runs out |
| `Directory.Abonents.Append` | AbonentList/add.c:61-73 | the linking keeps the list doubly linked, from both ends |
| `Directory.Abonents.Locate` | AbonentList/remove.c:25-38 | the walk stops at the first node with both names |
| `Directory.Abonents.Bypass` | AbonentList/remove.c:47-65 | joins the two neighbours, or moves head or tail, and changes no other link |
| `Directory.Abonents.SkipForwards` | AbonentList/remove.c:47-55 | the next link of the node before, or head, passes over the node, and no other next link changes |
| `Directory.Abonents.SkipBackwards` | AbonentList/remove.c:57-65 | the prev link of the node behind, or tail, passes over the node, and no other prev link changes |
| `Directory.Abonents.Unlink` | AbonentList/remove.c:47-71 | the list without that node is well formed, count included, and that node alone is freed |
| `Directory.Shorten` | AbonentList/remove.c:47-65 | joined neighbours make a well linked list of the others, from both ends |
| `Directory.Abonents.Delete` | AbonentList/remove.c:6-71 | removes exactly the first entry matching both names and frees its node and no other, or does nothing |
| `Directory.Abonents.Clear` | AbonentList/clear.c:6-20 | frees the nodes one by one from the head to the tail, every one of them, and leaves an empty list; it reads links through `Next` and frees through `Free`, which demand a node still allocated |
| `Directory.Abonent.Free` | AbonentList/clear.c:14 | a node is freed only while it is allocated, so once |
| `Directory.Abonents.DisplayAll` | AbonentList/displayPrint.c:5-29 | prints the entries in order |
| `Directory.Abonents.DisplayAllReverse` | AbonentList/displayPrint.c:34-59 | prints them backwards through prev |
| `Directory.Abonents.SearchByName` | AbonentList/search.c:23-67 | prints the entries with that name, in order |
| `Directory.Choose` | AbonentList/main.c:25-48 | one choice of the menu does to the list what it does to the sequence |
| `Directory.Session` | AbonentList/main.c:20-50 | any run of add, delete and clear keeps a well-formed list with the entries of the sequence model |
| `Directory.BridgedIsPlaced` | AbonentList/remove.c:47-65 | the neighbours' new links are those of the shorter list |
| `Directory.WithoutNode` | AbonentList/remove.c:47-71 | removing a node from the list removes its entry, keeps the nodes distinct and shifts the rest by one |
| `Directory.ReversedMirrors` | AbonentList/displayPrint.c:50-56 | backward traversal is the mirror image of forward |
| `Directory.NamedKeepsThose` | AbonentList/search.c:46-57 | the search finds all entries with the name, no others, none twice |
| `Directory.NamedOfConcat` | AbonentList/search.c:46-57 | and lists them in list order |
| `Directory.DeleteDropsOldest` | AbonentList/remove.c:29-38 | of the entries with both names the oldest goes; all the others stay in order |
| `Directory.DeleteUndoesAdd` | AbonentList/remove.c:6-71 | deleting undoes adding when nobody had those names |
| `Tokenizer.Trim` | Pipe/BushFix/trim.c:4-12 | returns the text without the spaces at both ends, terminated, and writes nothing outside the string; empty, blank and one-character strings included |
| `Tokenizer.TrimsUnique` | Pipe/BushFix/trim.c:4-12 | a text without the spaces at both ends is one text only |
| `Tokenizer.Strlen` | Pipe/BushFix/trim.c:7 | the distance to the NUL |
| `Tokenizer.Strspn` | Pipe/BushFix/parse_arguments.c:7 | strtok's skipping of spaces, as the C standard has it |
| `Tokenizer.Strcspn` | Pipe/BushFix/parse_arguments.c:7 | strtok's search for the end of the token |
| `Tokenizer.Strtok` | Pipe/BushFix/parse_arguments.c:13 | finds the next word, ends it with a NUL and goes on behind it; none only when nothing but spaces is left |
| `Tokenizer.ArgumentsKept` | Pipe/BushFix/parse_arguments.c:11-13 | later calls of strtok leave the words already found alone |
| `Tokenizer.ParseArguments` | Pipe/BushFix/parse_arguments.c:4-16 | the vector points at the words of the line in order, the first 63 at most, and ends with NULL; what is read through it as C strings are those words |
| `Tokenizer.CollectTokens` | Pipe/BushFix/parse_arguments.c:6-14 | the loop stores each token where it stands and stops at the end of the line or with 63 stored |
| `Tokenizer.VectorSays` | Pipe/BushFix/parse_arguments.c:11-15 | a vector of pointers into the buffer read as C strings gives its words |
| `Tokenizer.PipeCommand` | Pipe/BushFix/execute_pipe_command.c:9-18 | the two trims and two parses over one buffer do not disturb each other: each vector holds the words of its own half |
| `Tokenizer.ReadsFirst` | Pipe/BushFix/parse_arguments.c:7 | what one strtok reads is the first of the words, and what it leaves holds the others |
| `Tokenizer.ChainIsWhole` | Pipe/BushFix/parse_arguments.c:9-14 | the loop stops with all the words, or with the first 63 |
| `Tokenizer.FirstWordsAre` | Pipe/BushFix/parse_arguments.c:10 | all words up to 63, the first 63 of more |
| `Tokenizer.WordsOfJoined` | Pipe/BushFix/parse_arguments.c:4-16 | any non-empty space-free words, joined by any runs of spaces and surrounded by any, are found again |
| `Tokenizer.JoinedWords` | Pipe/BushFix/parse_arguments.c:4-16 | every line is its words joined by runs of spaces: nothing but spaces is lost |
| `Tokenizer.WordsAfterSpaces` | Pipe/BushFix/trim.c:6 | leading spaces do not matter |
| `Tokenizer.WordsBeforeSpaces` | Pipe/BushFix/trim.c:8 | nor do trailing ones |
| `Tokenizer.TrimmingKeepsWords` | Pipe/BushFix/trim.c:4-12 | trimming first never changes the words |

## Left out

- Sockets, select, fork, exec, pipes, threads and waitpid themselves: each is a step with its stated effect. Send, write and close are assumed to succeed, as the programs assume.
- Text output, menus, prompts and how scanf cuts its input: methods return the rows or take the text.
- The loops of find_free_server, of the worker threads of TaskThree and TaskTwo, of shoppers, loader and driver_main are modelled as steps of a transition system, not as methods, because their meaning lies in how the steps interleave.
- WorkerPool: the client's address that travels with the message is not modelled; a failed accept changes nothing and is no step; the text of the time is one reply, whatever the clock says.
- WorkerPool, Assignment: workers whose start-up failed (init_servers), and shutdown by signal handlers in the middle of an update.
- Assignment: a client connects to the endpoint it was given, and to no other, and at most once; the time itself and the error text to a refused client are events, not texts.
- Dispatcher: the exit command that kills the drivers, and the listing of drivers and states.
- Dispatcher: a run in which the kernel reissues a pid before its child is reaped; POSIX excludes it.
- DriverProtocol.CommandTextShape: task lengths are 32-bit ints, as scanf delivers them; time_t does not overflow.
- DriverProtocol: that a driver answers "Available" as soon as its task is over is not claimed; a request handled just after the deadline can be answered "Busy 0".
- Checksum.FoldTwiceIsFoldIff: stated for sums below 2^46, which an int length cannot exceed; far beyond it a lost carry can be congruent to none.
- Checksum.UdpChecksum: more than 1004 bytes of data overrun the routine's own buffer and are not modelled. The substitution of 0xFFFF for 0 in RFC 768 is not claimed, because the program does not do it.
- Frame: the receiving half of the client and the fields of the socket address.
- Shops: that all mutexes are free when main destroys them is not claimed; cancelling the loader can leave one locked. Sleeping changes nothing but time and is a plain step.
- Spiral, Shops, EchoTable, Directory: overflow of N * N, of stock and need, and of the counters.
- EchoTable.History.HandleMessage: a datagram of 1024 bytes with no NUL among them leaves the buffer without one, and the program then reads past it; no meaning is given to that.
- EchoTable: the shutdown notification to all clients in the signal handler.
- Directory.MyStrcmp: the char index, which would overflow past 127 equal characters; names have at most 9.
- Directory.Abonent.constructor: the three character arrays of a node are kept as values once filled, since nothing writes them again. Reading a freed node is ruled out for its links (`Next`, `Prev` require an allocated node), not for those values.
- Tokenizer: remove_newline, the exit command and running the programs; strtok's hidden static pointer is the result `saved` passed to the next call.
- The other programs of the repository (calculators, bits, the remaining arrays, signals, shared memory, simple socket pairs, file transfer, TaskOne and TaskFour, File_manager): straight-line exchanges or display code.
