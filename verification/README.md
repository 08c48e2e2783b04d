# A simple queue service, modelled and proved in Dafny

The repository is a message-queue service: clients create queues and put, get and delete
messages at data nodes; a master hands out leases on messages, keeps a log of every change,
fans changes out to the joined nodes, and brings nodes that start again up to date. It also
ships libevent's generator of marshalling code. The project models three parts of it.

**Leases** (`EventChain`, `MsgLock`, `LockRuns`, `Delivery`, `LeaseTime`). The master's timeout events form a
singly linked list that is rewritten in place; the locked (queue, id) pairs are kept in a
multimap, which is modelled as the sequence it iterates. The list refines stable insertion and
removal on sequences. In every run at all each lock keeps an event, and the fire loop ends with
the locks that are due later. The two structures agree over whole runs, and leases end only by
their own unlock or expiry, exactly when every unlock was safe; and then a message goes to one
consumer a lease, whatever nodes the consumers talk to. A lease lasts for its timeout and no longer.

**Replication** (`Database`, `Commands`, `DataNode`, `FanOut`, `HeartBeat`, `Membership`, `SyncWorker`, `Master`,
`MasterRuns`, `Cluster`, `Joining`, `InFlight`, `Overlap`, `QuietStores`, `Commuting`, `OverlapRuns`,
`Decimal`, `CommandText`, `CommandLoss`, `RequestLines`). The handlers are methods of classes with the source's
fields. Behind them are functions of the state, and behind these whole runs: accepts, the worker
that flushes item by item, the gate that holds it back, timers, crashes, restarts, recovery and
join. The results are log conservation, exact catch-up, which runs keep all joined nodes in
agreement (for every run: an if and only if), what remains of it when changes overlap, and when a
command survives being printed and parsed.

**Generated marshalling code** (`Rpc`, `RpcCode`, `RpcValues`, `GrowableArray`). The schema is data; marshal,
unmarshal and complete are its interpreters. A stream is a sequence of (tag, payload) records,
in which the payload of a struct is again a stream.

## Where the code does not do what was meant

For each of these there are inputs that show it, or the exact condition, or both.

* `MsgLock.h` says that `Lock` fails only for a message that is locked by others. The code looks
  for the queue and then scans to the end of all locks, so a lock on the same id of a
  later-ordered queue also makes it fail (`MsgLock.ExistsExactly`, `MsgLock.FreeMessageRefused`).
* An unlock of a free message can take such a lock away, and that message is then given out again
  (`LockRuns.UnsafeUnlockGrantsTwice`). `LockRuns.StepKeepsLeasesExactly` and
  `LockRuns.RunKeepsLeasesExactly` say exactly when no lease is cut short like this. The event of
  the lock that was taken away stays behind, and ends the message's next lease before its time
  (`LeaseTime.LeftoverEnds`, `LeaseTime.LeftoverShortens`).
* A join gives a node the whole history exactly if the node's log is a beginning of the history and
  has as many commands as the worker has popped (`Cluster.JoinCompletesExactly`,
  `MasterRuns.CatchUpExactly`). While the node holds the gate the count fails only for a node that
  reports a log longer than the master's, which is refused but may join
  (`MasterRuns.CatchUpWhileGateHeld`); and it can fail once a timer has opened the gate early
  (`MasterRuns.EarlyTimeoutLosesCommand`).
* The count alone is not enough. A node serves clients as soon as it starts, before it has recovered
  and joined. What it logs then leaves its log a beginning of the history only if the command happens
  to be the next one there (`Cluster.OwnChangeBehindExactly`). Recovery compares sizes only, so such a
  node can hold the gate, join, have its own command twice, and never get another one
  (`Joining.EarlyClientLosesCommand`).
* A node that starts again before a sweep has taken it off the list is listed twice once it has
  joined, and logs every later command twice (`Joining.RelistedLogsTwice`).
* Two nodes can hold the gate under one name (`Master.TidsCollide`), exactly when one name begins
  the other and the digits make up the difference (`Master.TidsCollideExactly`).
* The sweep over the joined nodes erases while it walks, so it leaves half of every run of dead
  nodes, rounded down, in the list (`FanOut.KeptRun`, `FanOut.SweepsClearExactly`). Its filter lets
  through every live node but the origin exactly if none of them shares the origin's host name or
  its port (`FanOut.FilterIsOthersExactly`).
* Two posts to one queue with different texts that overlap at two nodes with equal stores leave the
  stores different (`Overlap.OverlapAgreesExactly`). Stores can also differ although no posts clash
  (`QuietStores.DropCreatePostDiverges`).
* Values are put into request lines unescaped. They arrive as they were, at the master and at the
  replicas, exactly if they have no characters that mean something in a query
  (`CommandLoss.MasterRebuildsExactly`, `CommandLoss.LineIsFixedExactly`). This goes for the id of a
  delete too, which is passed on as its client wrote it (`CommandLoss.RawIdBreaksLine`).
* Marshalling an incomplete message produces a stream that decodes to a complete one
  (`Rpc.MsgTrip`, `Rpc.FilledComplete`), and an `add` that grows an array and then cannot make its
  element leaves the array looser than doubling promises (`GrowableArray.TightExactly`).

## Model

| member | source | states |
|---|---|---|
| LockRuns.RunAgreesExactly | SQSMaster/src/MsgLock.cpp:174-227 | over any run of locks, unlocks and expiries, the multimap's pairs stay distinct and exactly those of the chain's events, one event each, in deadline order, if and only if every unlock named a held pair or one that nothing shadows |
| LockRuns.RunCovered | SQSMaster/src/MsgLock.cpp:174-227 | in every state of every run, whatever its unlocks name: the chain is in deadline order with default timeouts, the locked pairs are distinct and in key order, and each has an event of its own |
| LockRuns.RunKeepsLeasesExactly | SQSMaster/src/MsgLock.cpp:174-227 | throughout a run leases end only by their own unlock or expiry, if and only if every unlock in it named a held pair or one that nothing shadows |
| LockRuns.StepKeepsLeasesExactly | SQSMaster/src/MsgLock.cpp:185-227 | in any reachable state, a step cuts no lease short if and only if it asks to delete nothing, or a held pair, or one that no later-ordered queue shadows |
| LockRuns.GrantedTwiceEndedBetween | SQSMaster/src/MsgLock.cpp:174-227 | mutual exclusion in every run, whatever its unlocks name: between two grants of one pair some step unlocks it, expires it, or cuts its lease short |
| LockRuns.GrantedTwiceReleasedBetween | SQSMaster/src/MsgLock.cpp:174-227 | so in a run with safe unlocks there is an unlock of the pair by name, or its expiry, between two grants |
| LockRuns.HeldUntilEnded | SQSMaster/src/MsgLock.cpp:174-227 | in every run, a granted pair is in the multimap after every later step up to the first that releases it or cuts its lease short |
| LockRuns.OneQueueIsSafe | SQSMaster/src/MsgLock.cpp:185-227 | when all locks are on one queue, unlocks of anything whatever keep the agreement |
| LockRuns.StepAgreesExactly | SQSMaster/src/MsgLock.cpp:174-227 | one step keeps the agreement if and only if it is no unlock of a free pair that some lock of a later-ordered queue shadows |
| LockRuns.StepMembers | SQSMaster/src/MsgLock.cpp:174-227 | in any reachable state, a step adds the pair it grants and takes away the one pair whose lease it ends, by release or by cutting it short |
| LockRuns.UnsafeUnlockGrantsTwice | SQSMaster/src/SQSMaster.cpp:432-433 | four requests, one of them an unlock of a free message, that give one message to two consumers |
| Delivery.OneDeliveryPerLease | SQSDataNode/src/DataNode.cpp:385-430 | in a run of gets on any nodes, expiries and safe unlocks, two gets that return the same message have its unlock or expiry between them |
| Delivery.DeliveredTwiceEndedBetween | SQSDataNode/src/DataNode.cpp:385-430 | and in every run, whatever its unlocks name, its unlock, its expiry, or a step that cuts its lease short |
| Delivery.RunKeepsLeasesExactly | SQSMaster/src/SQSMaster.cpp:432-477 | across the cluster, leases end only by their own unlock or expiry throughout a run if and only if every unlock in it names a held message or one that nothing shadows |
| Delivery.GetSearches | SQSDataNode/src/DataNode.cpp:391-414 | in every run, with all other nodes at work, a get returns the first row in id order whose lock was granted, each earlier row having been refused to this very get while it or a shadowing message was locked; it fails only when every row was |
| Delivery.GetsOk | SQSDataNode/src/DataNode.cpp:391-414 | in every run, a get in progress has been refused exactly the rows before its next one, in order |
| Delivery.RefusalsHappened | SQSMaster/src/SQSMaster.cpp:447-477 | in every run, each refusal of a get was an answer of the master to a request of that get, made while the message or one that shadows it was locked |
| Delivery.Turn | SQSDataNode/src/DataNode.cpp:391-414 | one turn of a get, told by the stored rows: it fails when all were refused; else it asks for the next in id order, goes on if that or a message that shadows it is locked, and else locks it, returns it and ends |
| Delivery.OtherSteps | SQSDataNode/src/DataNode.cpp:385-391 | a get starts with nothing refused; a node's store changes only between its gets; unlocks and expiries change the locks alone |
| Delivery.GetAnswers | SQSDataNode/src/DataNode.cpp:391-414 | when a get ends, every stored message with a smaller id than the one returned, or every stored one if none is, was refused to this get while it or a shadowing message was locked |
| LeaseTime.LeaseLasts | SQSMaster/src/MsgLock.cpp:136-160 | in a run with safe unlocks, a pair granted when the clock reads c and locked until an expiry ends its lease was locked for the whole timeout: 1000 times the reading of that expiry is at least 1000 c and the timeout |
| LeaseTime.ExpiredIsFree | SQSMaster/src/MsgLock.cpp:136-160 | in every run, once the timeout of a pair that has stayed locked is over, a drain at that reading or later ones leaves it free |
| LeaseTime.DeliveryLasts | SQSDataNode/src/DataNode.cpp:385-430 | the same of a message that a get on any node has returned: no expiry lets it go before its timeout is over, if the unlocks of the run are safe |
| LeaseTime.DeliveryExpires | SQSMaster/src/MsgLock.cpp:136-160 | and once it is over a drain leaves the message free, in every run |
| LeaseTime.LeaseLastsUnlessLeftover | SQSMaster/src/MsgLock.cpp:136-160 | in every run, whatever its unlocks name: an expiry of a pair's own event comes no earlier, if no event of the pair was left on the chain when it was granted |
| LeaseTime.LeftoverEnds | SQSMaster/src/MsgLock.cpp:147-157 | and if one was, a drain ends the lease as soon as that event is due, however recent the lease |
| LeaseTime.LeftoverShortens | SQSMaster/src/MsgLock.cpp:212-227 | a run of six steps with a lease granted at 4 for five seconds and over at 5 |
| EventChain.InsertSorted | SQSMaster/src/MsgLock.cpp:83-118 | scheduling keeps deadline order whatever the clock reads, and is stable: what is due no later stays ahead, what is due later follows |
| EventChain.SameTimeoutAppends | SQSMaster/src/MsgLock.cpp:83-118 | with one timeout and a clock that does not go back, the new event goes last |
| EventChain.RemoveSorted | SQSMaster/src/MsgLock.cpp:28-55 | cancelling keeps deadline order |
| EventChain.CancelledAt | SQSMaster/src/MsgLock.cpp:28-55 | what is cancelled is the first event equal in id, queue and scheduled time, if there is one |
| EventChain.EventChain.Schedule | SQSMaster/src/MsgLock.cpp:83-118 | the linked list, rewritten in place, goes from one acyclic chain to another that stands for the stable insertion by absolute deadline |
| EventChain.EventChain.FindSlot | SQSMaster/src/MsgLock.cpp:103-113 | the walk over remaining times stops exactly at the slot of the absolute deadline |
| EventChain.EventChain.LinkAfter | SQSMaster/src/MsgLock.cpp:106-108 | relinking after the k-th node inserts at k + 1 and leaves every other link alone |
| EventChain.EventChain.Cancel | SQSMaster/src/MsgLock.cpp:28-55 | the linked list loses the first event equal in id, queue and scheduled time, or nothing; the order of the others stays |
| EventChain.EventChain.FindMatch | SQSMaster/src/MsgLock.cpp:41-53 | the walk stops before the first equal event, or at the last node |
| EventChain.EventChain.UnlinkAfter | SQSMaster/src/MsgLock.cpp:43-46 | relinking over the node after the k-th removes exactly that one |
| MsgLock.ExistsExactly | SQSMaster/src/MsgLock.cpp:189-198 | IsExist answers true if and only if the pair is locked, or its queue has a lock and a later-ordered queue has one on the same id |
| StringOrder.LessExactly | SQSMaster/src/MsgLock.cpp:189-198 | the order of the multimap's keys: the strings agree up to a place where the first ends or has the smaller character |
| MsgLock.LocatedHeld | SQSMaster/src/MsgLock.cpp:216-224 | the scan for a locked pair ends at that pair and no other |
| MsgLock.AgreeLock | SQSMaster/src/MsgLock.cpp:174-211 | a granted lock adds exactly its pair and keeps the agreement of multimap and chain |
| MsgLock.DelHeld | SQSMaster/src/MsgLock.cpp:212-227 | deleting a locked pair removes that pair and its event, nothing else, and keeps the agreement |
| MsgLock.DelAgreesExactly | SQSMaster/src/MsgLock.cpp:212-227 | a delete keeps the agreement if and only if the pair is held or not shadowed, and then changes nothing when it is not held |
| MsgLock.TakenExactly | SQSMaster/src/MsgLock.cpp:216-224 | the entry a delete erases is the named pair if it is held, else one of the same id in a later-ordered queue if there is one that shadows it, else none |
| MsgLock.CoveredDel | SQSMaster/src/MsgLock.cpp:212-227 | any delete, whatever it names, leaves every locked pair an event of its own |
| MsgLock.CoveredLock | SQSMaster/src/MsgLock.cpp:174-211 | and so does any lock |
| MsgLock.FreeMessageRefused | SQSMaster/src/MsgLock.h:197-201 | two locks after which Lock refuses a message that nobody has locked |
| MsgLock.FireHead | SQSMaster/src/MsgLock.cpp:199-227 | whatever has become of the multimap, the release callback takes the head it was called for off the chain, and nothing else |
| MsgLock.FireHeldHead | SQSMaster/src/MsgLock.cpp:199-227 | while multimap and chain agree it also takes the head's own pair out of the multimap, and they agree still |
| MsgLock.FiredExactly | SQSMaster/src/MsgLock.cpp:147-157 | with the clock read anew each time, the i-th event is fired if and only if it was due at the i-th reading and all before it were fired |
| MsgLock.DrainExactly | SQSMaster/src/MsgLock.cpp:147-157 | whatever has become of the multimap, the drain fires a prefix of the chain and leaves the rest as it was |
| MsgLock.DrainAtFixedClock | SQSMaster/src/MsgLock.cpp:136-160 | and at one clock reading it leaves exactly the events with a later deadline |
| MsgLock.DrainLeavesLater | SQSMaster/src/MsgLock.cpp:136-160 | in any reachable state, every lock that is left after a drain at one clock reading has an event that is due later |
| MsgLock.DrainUnlocksDue | SQSMaster/src/MsgLock.cpp:136-160 | while multimap and chain agree, the drain unlocks exactly the locks that are due |
| MsgLock.DrainKeeps | SQSMaster/src/MsgLock.cpp:147-157 | a drain keeps the agreement of multimap and chain, and where that is lost, an event for every lock |
| MsgLock.LockedHasEvent | SQSMaster/src/MsgLock.cpp:206-211 | a pair is locked if and only if an event for it is on the chain |
| MsgLock.MsgLock.IsExist | SQSMaster/src/MsgLock.cpp:189-198 | the loop over the multimap finds what the specification's scan finds |
| MsgLock.MsgLock.Lock | SQSMaster/src/MsgLock.cpp:174-184 | succeeds if and only if IsExist says no; then just its pair is added, with an event that carries the default timeout and the time of the lock; else nothing changes |
| MsgLock.MsgLock.Insert | SQSMaster/src/MsgLock.cpp:206-211 | the pair goes behind all entries of its key, its event by deadline |
| MsgLock.MsgLock.UnLock | SQSMaster/src/MsgLock.cpp:185-188 | always answers true, and deletes |
| MsgLock.MsgLock.Del | SQSMaster/src/MsgLock.cpp:212-227 | cancels the event and erases the entry that the scan finds |
| MsgLock.MsgLock.Fire | SQSMaster/src/MsgLock.cpp:147-157 | the fire loop ends whatever has become of the multimap, and leaves the drained state |
| Master.Sweep | SQSMaster/src/SQSMaster.cpp:257-267 | the loop that erases while it walks, asking the heartbeat about each node it does not skip, leaves the list, sends to the nodes, and leaves the heartbeat's own list as the recursive account says |
| FanOut.WalkKeeps | SQSMaster/src/SQSMaster.cpp:257-267 | the walk with a moving index equals the recursion that skips the node after each erased one |
| FanOut.LiveKept | SQSMaster/src/SQSMaster.cpp:257-267 | no live node is removed, and the live nodes keep their order |
| FanOut.LiveAreSent | SQSMaster/src/SQSMaster.cpp:257-267 | the live nodes among those sent to are exactly the live nodes that pass the filter, each as often as listed, in list order |
| FanOut.KeptAroundLive | SQSMaster/src/SQSMaster.cpp:257-267 | a live node splits the sweep in two independent ones |
| FanOut.KeptRun | SQSMaster/src/SQSMaster.cpp:257-267 | of a run of k dead nodes exactly those at odd places stay: k/2 rounded down |
| FanOut.SkippedStay | SQSMaster/src/SQSMaster.cpp:257-267 | a dead node is left as often as it was listed, less as often as the sweep asks about it |
| FanOut.SweepHalves | SQSMaster/src/SQSMaster.cpp:257-267 | one sweep halves the longest run of dead nodes |
| FanOut.SweepsClearExactly | SQSMaster/src/SQSMaster.cpp:257-267 | n sweeps leave exactly the live nodes if and only if every run of dead nodes is shorter than 2 to the n |
| FanOut.FilterIsOthersExactly | SQSMaster/src/SQSMaster.cpp:264-266 | the sender filter lets through all live nodes but the origin if and only if none of them shares the origin's name or port |
| HeartBeat.AskingIsStable | SQSMaster/src/SQSMaster.cpp:151-162 | although a negative answer changes the list, all the answers at one clock reading, however many nodes were asked about before, are those of one fixed predicate |
| HeartBeat.WithoutKeeps | SQSMaster/src/SQSMaster.cpp:163-171 | cancelling a node makes it not alive and leaves every other node's answer as it was; no node is listed twice |
| HeartBeat.HeartBeat.AddDataNode | SQSMaster/src/SQSMaster.cpp:131-150 | an added node replaces its old self and no other, and at every reading of the clock is alive if and only if less than its timeout has passed |
| HeartBeat.HeartBeat.CancelDataNode | SQSMaster/src/SQSMaster.cpp:163-171 | the first entry equal to the node goes, and each node stays listed at most once |
| HeartBeat.HeartBeat.IsNodeAlive | SQSMaster/src/SQSMaster.cpp:151-162 | true if and only if the node is listed and less than its timeout has passed since it was heard from; otherwise its entry goes, and no other |
| HeartBeat.HeartBeat.Recycle | SQSMaster/src/SQSMaster.cpp:23-27 | a node that answers a probe is heard from now; the other entries stay |
| HeartBeat.LiveExactly | SQSMaster/src/SQSMaster.cpp:28-36 | alive is registered, and heard from less than the timeout ago |
| HeartBeat.AskedExactly | SQSMaster/src/SQSMaster.cpp:151-162 | after any questions the list has the entries of live nodes, and of nodes not asked about |
| Membership.HeardStays | SQSMaster/src/SQSMaster.cpp:131-171 | over any run of joins, probes and changes: a joined node that each change finds heard from less than ten seconds ago stays joined, and is alive exactly for ten seconds after it was last heard from |
| Membership.JoinedStays | SQSMaster/src/SQSMaster.cpp:525-545 | a node that joined at t and has been silent since is not removed by changes less than ten seconds later, and is alive at a reading if and only if that is less than ten seconds later |
| Membership.SilentDies | SQSMaster/src/SQSMaster.cpp:257-267 | in any run, a node silent since it joined at t is not alive at any reading ten seconds later or more |
| Membership.DeadGoes | SQSMaster/src/SQSMaster.cpp:257-267 | and a sweep takes it off the list, if the node listed before it is alive or it is the first |
| SyncWorker.DecrementKeeps | SQSMaster/src/SQSMaster.cpp:690-702 | a decrement removes one holder or changes nothing; the count is the number of distinct holders, and the clamp to 0 never fires |
| SyncWorker.IncrementKeeps | SQSMaster/src/SQSMaster.cpp:703-720 | an increment makes the id a holder, once |
| SyncWorker.SyncWorker.DecrementLock | SQSMaster/src/SQSMaster.cpp:690-702 | the loop takes just this id from the holders, and the count with it, or changes nothing |
| SyncWorker.SyncWorker.IncrementLock | SQSMaster/src/SQSMaster.cpp:703-720 | an old entry of the id goes, a new one comes last; the other holders stay |
| SyncWorker.SyncWorker.FlushPass | SQSMaster/src/SQSMaster.cpp:733-751 | one pass moves exactly the commands queued at its start, in order, and leaves exactly what arrived meanwhile |
| SyncWorker.ArrivedInOrder | SQSMaster/src/SQSMaster.cpp:733-751 | what arrived meanwhile is left in the order of arrival |
| Master.SQSMaster.OnChange | SQSMaster/src/SQSMaster.cpp:237-278 | the command is queued last, nodes the heartbeat has given up are swept from the list, and it is sent to the listed nodes that pass the filter |
| Master.SQSMaster.OnDeleteMessage | SQSMaster/src/SQSMaster.cpp:386-445 | as for the other changes, and the lease on the message is released |
| Master.SQSMaster.OnGet | SQSMaster/src/SQSMaster.cpp:447-477 | success if and only if the lock service finds no lock, which is then taken |
| Master.SQSMaster.OnRecovery | SQSMaster/src/SQSMaster.cpp:478-524 | the node becomes a holder of the gate in any case, and the other holders stay; if its log is no longer than the master's it is sent the end of the log that it lacks, in order, and else nothing |
| Master.SQSMaster.OnJoin | SQSMaster/src/SQSMaster.cpp:525-566 | the node is listed last and heard from now, is sent the whole queue in order, and its own gate entry goes, no other |
| Master.JoinReleases | SQSMaster/src/SQSMaster.cpp:525-566 | a join takes the joining node's gate name from the holders and no other, and leaves log and queue alone |
| Master.RecoverHolds | SQSMaster/src/SQSMaster.cpp:478-524 | a recovery adds the node's gate name to the holders and takes none away |
| MasterRuns.GateEntries | SQSMaster/src/SQSMaster.cpp:690-720 | who holds the gate after any step: a recovery adds its node's name, a join takes its node's name away, a timer its own id, and nothing else makes a difference |
| MasterRuns.EntryStays | SQSMaster/src/SQSMaster.cpp:690-720 | from a recovery on, the gate entry stays until a node of that gate name joins or a timer for it fires |
| Master.TidsCollide | SQSMaster/src/SQSMaster.cpp:492-494 | two different nodes with one gate name, and the gate open while one of them is still catching up |
| Master.TidsCollideExactly | SQSMaster/src/SQSMaster.cpp:492-494 | two nodes have one gate name if and only if the shorter name begins the longer and the digits of its port are the rest of that name and the other's digits |
| Master.CollidingNamesDiffer | SQSMaster/src/SQSMaster.cpp:492-494 | nodes with names of one length never share a gate name unless name and port are the same |
| Master.CollisionOpensGate | SQSMaster/src/SQSMaster.cpp:703-720 | whoever else holds the gate, when two nodes with one gate name recover and the second joins, nothing holds the gate for the first |
| MasterRuns.RunOk | SQSMaster/src/SQSMaster.cpp:690-751 | log conservation: in every state of every run, the log followed by what is pending is exactly the accepted commands in order, also between copying a command and popping it |
| MasterRuns.GateHoldsFlush | SQSMaster/src/SQSMaster.cpp:737-739 | while anyone holds the gate no step moves a command into the log or off the queue |
| MasterRuns.QueueIsTail | SQSMaster/src/SQSMaster.cpp:733-751 | the queue is always the end of the history, and the log its beginning |
| MasterRuns.HistoryGrows | SQSMaster/src/SQSMaster.cpp:733-751 | along a run the history and the log only ever grow at their ends |
| MasterRuns.DispatchedIsSent | SQSMaster/src/SQSMaster.cpp:478-566 | what recovery and join dispatch, as used in the catch-up results, is what the two handlers send |
| MasterRuns.CatchUpExactly | SQSMaster/src/SQSMaster.cpp:478-566 | in any run, a node with the first k commands is sent by recovery and join exactly the commands from k on, once and in order, if and only if the worker has by then popped just what the recovery covered |
| MasterRuns.HeldGateKeepsLog | SQSMaster/src/SQSMaster.cpp:703-751 | from the recovery on, for as long as its gate entry stays, the log does not change and no flush is under way |
| MasterRuns.CatchUpWhileGateHeld | SQSMaster/src/SQSMaster.cpp:478-566 | if the gate entry is not released before the join, however many accepts and flush attempts come between, the node is sent exactly what it lacks if and only if its log was no longer than the master's |
| MasterRuns.CatchUpUndisturbed | SQSMaster/src/SQSMaster.cpp:478-566 | if between recovery and join no node of that gate name joins and no timer for it fires, whatever else happens, the node is sent exactly what it lacks if and only if its log was no longer than the master's |
| MasterRuns.EarlyTimeoutLosesCommand | SQSMaster/src/SQSMaster.cpp:666-672 | a run in which the timer opens the gate and the joining node never gets an accepted command |
| Cluster.RunAgreesExactly | SQSMaster/src/SQSMaster.cpp:237-566 | in every run at all of changes, crashes, restarts, recoveries, joins, flushes and timers, each joined node that is up has the whole history throughout if and only if every event was harmless when it happened: an accepted change reaches each other joined node that is up once, a node still listed starts again only with the whole history, and a node that joins has a log that is a beginning of the history and ends where the queue begins |
| Cluster.StepAgreesExactly | SQSMaster/src/SQSMaster.cpp:237-566 | from any state in agreement, an event leaves the nodes in agreement if and only if it is harmless |
| Cluster.ReplicasAgree | SQSDataNode/src/DataNode.cpp:188-374 | after harmless events, any two joined nodes that are up have the same log, the whole history, and the same store, its replay |
| Cluster.BehindExactly | SQSDataNode/src/DataNode.cpp:188-374 | in such a run, the log of any node, joined or not, up or not, stays a beginning of the history if and only if the node never logs a command of its own client when the history has another one next |
| Cluster.StaysBehindExactly | SQSDataNode/src/DataNode.cpp:188-374 | and so for each event |
| Cluster.OwnChangeBehindExactly | SQSDataNode/src/DataNode.cpp:118-142 | in any state, a client's change at a node leaves that node's log a beginning of the history if and only if the node has the whole history or the command is the next one there |
| Cluster.RunSound | SQSMaster/src/SQSMaster.cpp:237-566 | in every run at all, every store is the replay of its node's log, and the master's log and queue are the history |
| Cluster.StartsAndDies | SQSDataNode/src/DataNode.cpp:118-142 | a node starts with the log and store it had, or with none; a crash changes nothing but that the node is down |
| Cluster.LogGrows | SQSDataNode/src/DataNode.cpp:457-594 | any event adds to any node's log just what it sends to it: a change as often as the node is listed, unless the node shares the origin's name or port; a recovery what the log lacks by its size; a join the queue |
| Cluster.JoinCompletesExactly | SQSMaster/src/SQSMaster.cpp:525-566 | whatever has become of its recovery and its gate entry, and listed already or not, a join gives a node the whole history if and only if its log is a beginning of the history with as many commands as the worker has popped |
| Cluster.FanOutSends | SQSMaster/src/SQSMaster.cpp:257-267 | a change is sent to a node that is up as often as it is listed, and not at all if it shares the origin's name or port |
| Cluster.FanOutReaches | SQSMaster/src/SQSMaster.cpp:257-267 | with distinct addresses, a change from any node reaches every other listed node that is up exactly once, and nobody else |
| Cluster.ReceiveLog | SQSDataNode/src/DataNode.cpp:457-594 | a node that receives commands appends them to its log and ends with the replay of the whole log |
| Cluster.OriginReplays | SQSDataNode/src/DataNode.cpp:281-327 | the origin's own store, after a change, is the replay of its log too |
| Joining.GateKeepsReady | SQSMaster/src/SQSMaster.cpp:478-566 | in any run, from a recovery of an unlisted node whose log is a beginning of the master's, the node may join, and has the whole history if it does, as long as it has had no event of its own, no node of its gate name has joined and no timer for that name has fired, whatever the others and the worker do |
| Joining.ReadyWhileHeld | SQSMaster/src/SQSMaster.cpp:478-566 | the same for as long as its gate entry stays |
| Joining.RecoveryReadiesExactly | SQSMaster/src/SQSMaster.cpp:478-524 | a recovery gives a node exactly the master's log if and only if its own was a beginning of that |
| Joining.ReadyStays | SQSMaster/src/SQSMaster.cpp:733-751 | a node with the master's log stays so through every event of the others that leaves its gate entry in place |
| Joining.ReadyMayJoin | SQSMaster/src/SQSMaster.cpp:525-566 | a node with the master's log that holds the gate meets the condition of a join |
| Joining.ProperRunIsHarmless | SQSMaster/src/SQSMaster.cpp:237-566 | a run is harmless if addresses are distinct, a node that starts again has been swept off the list, and one that joins has the master's log and holds the gate |
| Joining.EarlyClientLosesCommand | SQSDataNode/src/DataNode.cpp:118-142 | a run of twelve events in which a node serves a client before it recovers, holds the gate, meets the count, joins, and ends with its own command twice and another one missing |
| Joining.RelistedLogsTwice | SQSMaster/src/SQSMaster.cpp:525-545 | whenever a node that is listed once starts, recovers and joins, while the worker is idle, it logs the next command twice |
| Joining.RejoinedHas | SQSMaster/src/SQSMaster.cpp:478-566 | what a node's log is after start, recovery and join: its own, then what the master's log has beyond that size, then the queue |
| InFlight.RunConservesExactly | SQSDataNode/src/DataNode.cpp:307-319 | when the origin's append and the master's accept are separate steps, in every run with crashes, lost requests, recoveries, joins and flushes, the log of each joined node that is up is throughout, as a multiset, the history and its own commands in flight, if and only if every step was harmless when it was taken |
| InFlight.StepConservesExactly | SQSMaster/src/SQSMaster.cpp:254-267 | and so for each step |
| InFlight.LoseChanges | SQSDataNode/src/DataNode.cpp:81-98 | a request under way is lost only when its node has gone down, and the node's log keeps the command |
| InFlight.ArriveFitsExactly | SQSMaster/src/SQSMaster.cpp:254-267 | an arrival leaves a joined node's log as it should be if and only if the node is the origin, or is listed once and shares neither the origin's name nor its port |
| InFlight.StoresReplayed | SQSDataNode/src/DataNode.cpp:457-594 | in every such run at all, every store is the replay of its node's log |
| InFlight.QuietLogsPermute | SQSMaster/src/SQSMaster.cpp:254-267 | once nothing of two joined nodes is in flight, their logs are permutations of one another |
| InFlight.TogetherIsChange | SQSDataNode/src/DataNode.cpp:307-319 | a change whose halves come right after one another is the one-step change of the other runs |
| Overlap.OverlapAgreesExactly | SQSDataNode/src/DataNode.cpp:188-374 | two changes that overlap at two joined nodes with equal stores leave them equal if and only if they are not two posts to one queue with different texts; the logs gain the same commands in any case |
| QuietStores.QuietStoresEqual | SQSDataNode/src/DataNode.cpp:188-374 | over whole runs with crashes, recoveries, joins and flushes, from any state with nothing in flight in which the joined nodes have the whole history: if every change is appended while no other node has one of its queue in flight, every arrival reaches all, and nodes that join or start again while listed then have each queue's commands in order, any two joined nodes with nothing in flight have logged the same commands of each queue in the same order, and have equal stores |
| QuietStores.RunInOrder | SQSDataNode/src/DataNode.cpp:188-374 | the invariant behind it, for each queue: what a joined node has logged is the history and then what it has in flight, and only one node has commands in flight |
| QuietStores.ReplayPart | SQSDataNode/src/Database.cpp:26-168 | the table a log replays to depends on that queue's commands alone |
| QuietStores.DropCreatePostDiverges | SQSDataNode/src/DataNode.cpp:188-374 | from any state in which two joined nodes have nothing in flight: one drops and then creates a queue, each node with one request under way at a time, while the other posts to it; once all has arrived the two stores differ, although no two posts clash |
| QuietStores.CompleteJoinIsOrderly | SQSMaster/src/SQSMaster.cpp:525-566 | a join that gives a node with nothing in flight the whole history meets what is asked of a join here |
| OverlapRuns.RunKeepsStoresExactly | SQSDataNode/src/DataNode.cpp:188-374 | over the same runs, whatever overlaps: each joined node's store is throughout what the history and then the node's own commands in flight make of an empty one, if and only if every arriving command could change places with all that the other joined nodes had in flight |
| OverlapRuns.StepKeepsStoresExactly | SQSDataNode/src/DataNode.cpp:188-374 | and so for each step |
| OverlapRuns.MildStoresReplay | SQSDataNode/src/DataNode.cpp:188-374 | if clients change queues at joined nodes, no creation or removal of a queue overlaps another change of it, and no two posts to one queue overlap, the store of any joined node with nothing in flight is the replay of the history, though its log may be in another order |
| OverlapRuns.FirstIndependent | SQSDataNode/src/DataNode.cpp:303-319 | ids chosen and found at two nodes under such overlaps: the message one node is about to post is none that the other is about to delete |
| Commuting.IndependentCommute | SQSDataNode/src/Database.cpp:26-168 | on every store, commands of different queues, two deletes, and a put and a delete of different ids can be applied in either order |
| Commuting.CommutePast | SQSDataNode/src/Database.cpp:26-168 | so can a command and a whole sequence of commands each of which is like this |
| Overlap.CommuteExactly | SQSDataNode/src/Database.cpp:26-168 | two changes that one store accepts can be applied in either order with the same result, but for such a pair of posts |
| Overlap.OverlapLogs | SQSDataNode/src/DataNode.cpp:303-319 | each of the two nodes logs its own command first and the other's second |
| Overlap.PostDeleteCommute | SQSDataNode/src/Database.cpp:74-86 | a post and a delete of another message can change places |
| Overlap.PostsClash | SQSDataNode/src/Database.cpp:74-86 | two posts with one id and different texts leave different tables in the two orders |
| Commands.StoredIsReplayed | SQSDataNode/src/DataNode.cpp:281-327 | the origin's store changes exactly as a replica's does when it replays the logged command, although the origin let the store choose the id; a refused change leaves it alone |
| Commands.ReplayOk | SQSDataNode/src/Database.cpp:26-168 | every log replays to tables with increasing ids, none above the table's counter |
| Database.AutoIdIsFresh | SQSDataNode/src/Database.cpp:74-86 | an automatic id is larger than every id the table ever held, the insert with it succeeds, and the explicit insert of that id does the same |
| Database.PutKeepsOk | SQSDataNode/src/Database.cpp:74-86 | an insert, automatic or explicit, keeps ids increasing and below the counter |
| Database.DeleteKeepsOk | SQSDataNode/src/Database.cpp:156-168 | so does a delete |
| Database.PutThenDelete | SQSDataNode/src/Database.cpp:156-168 | a delete takes back what an insert of that id did to the rows |
| Database.HasRowMeaning | SQSDataNode/src/Database.cpp:179-191 | the ordered lookup finds an id if and only if some row has it |
| Database.Database.PutMessage | SQSDataNode/src/Database.cpp:74-86 | an absent queue or a taken id gives -1 and changes nothing; else the row goes behind those with smaller ids and before those with larger ones, with the id asked for, or one more than the table has ever held for -1 |
| Database.Database.GetMessage | SQSDataNode/src/Database.cpp:98-122 | succeeds if and only if the queue exists and holds more than skip messages; returns the stored message that has just skip stored ones with smaller ids |
| Database.OneOffset | SQSDataNode/src/Database.cpp:98-122 | each stored message has exactly one offset, the number of stored ones with smaller ids |
| Database.Database.DeleteMessage | SQSDataNode/src/Database.cpp:156-168 | succeeds if and only if the queue has a row of the id, and removes that row and nothing else |
| Database.Database.CreateQueue | SQSDataNode/src/Database.cpp:26-35 | succeeds if and only if the queue is absent, which then is there with no rows and its ids starting from 1 |
| Database.Database.DeleteQueue | SQSDataNode/src/Database.cpp:63-72 | succeeds if and only if there is such a queue, which is then gone, counter and all |
| DataNode.DataNode.OnClientChange | SQSDataNode/src/DataNode.cpp:188-374 | for each of the four paths, in terms of the tables before: what the tables, the log, the messages to the master and the reply are. A change the store refuses changes nothing and fails; one it accepts is stored, logged and sent once, a put with the id that is one more than the table has ever held; anything else is not recognised and changes nothing |
| DataNode.DataNode.OnMasterRecv | SQSDataNode/src/DataNode.cpp:457-594 | for each path, in terms of the tables before: the command is logged in any case, the tables change as the store accepts it, and the reply says so; the store stays the replay of the log |
| DataNode.DataNode.OnClientGet | SQSDataNode/src/DataNode.cpp:375-430 | a message returned is stored and was granted, and every stored one with a smaller id was refused; after a failure every stored one was; a request without a queue is not recognised |
| Decimal.IntRoundTrip | SQSDataNode/src/DataNode.cpp:306-308 | reading a printed number back gives the number |
| Decimal.AtoiReads | SQSDataNode/src/DataNode.cpp:342-344 | white space, a sign, zeros and a printed number, and then anything that does not go on with a digit, read as that number |
| Decimal.AtoiOfNoNumber | SQSDataNode/src/DataNode.cpp:342-344 | with no digit there it reads as 0 |
| CommandText.LineIsFixed | SQSDataNode/src/DataNode.cpp:518-535 | for values without reserved characters, a replica's parsing and rebuilding of a line is the identity |
| CommandText.MasterRebuildsLine | SQSMaster/src/SQSMaster.cpp:339-358 | for values without reserved characters, the line the master builds from the origin's request is the origin's own log line |
| CommandText.MasterRebuildsAsReplica | SQSMaster/src/SQSMaster.cpp:237-430 | for any values at all, what the master builds from the origin's request is what a replica builds from the origin's line |
| CommandLoss.MasterRebuildsExactly | SQSMaster/src/SQSMaster.cpp:237-430 | the line the master builds from the origin's request is the origin's log line if and only if its values, raw id included, have no reserved characters |
| CommandLoss.RawIdBreaksLine | SQSDataNode/src/DataNode.cpp:342-368 | a delete whose client wrote a plus sign behind the digits deletes the message, but the master hands on another line than the origin logged |
| CommandText.TextCarriesCommand | SQSDataNode/src/DataNode.cpp:305-319 | both the line and the request carry exactly the command that is meant, its id read with atoi |
| CommandText.PrintedMeans | SQSDataNode/src/DataNode.cpp:306-308 | a command written with its id in plain decimal means that command |
| CommandLoss.LineIsFixedExactly | SQSDataNode/src/DataNode.cpp:457-594 | a replica logs the line it was sent, for any command and any id text, if and only if its values have no reserved characters |
| CommandText.LinesDiffer | SQSDataNode/src/DataNode.cpp:305-310 | commands written differently, id text included, have different lines |
| CommandText.ParsePrinted | libevent-2.0.19/include/event2/http.h:682-699 | parsing a printed parameter list gives the same names with their values decoded |
| CommandText.ReceivedPrinted | libevent-2.0.19/include/event2/http.h:682-699 | a printed request is received as its path and its parameters |
| RequestLines.LineIs | SQSDataNode/src/DataNode.cpp:208-356 | the four lines, letter for letter |
| RequestLines.RequestIs | SQSDataNode/src/DataNode.cpp:311-319 | the request to the master: the line with the node's name and port in front |
| RequestLines.LineRequest | SQSDataNode/src/DataNode.cpp:457-594 | what the handlers find in a clean line: its path and just its own parameters |
| RequestLines.LineAsks | SQSDataNode/src/DataNode.cpp:172-371 | as a client's request a clean line asks for the change of its kind, queue, text and id |
| RequestLines.FindsFirst | libevent-2.0.19/include/event2/http.h:682-699 | of several values of one key the first is found |
| RequestLines.TravelsExactly | libevent-2.0.19/include/event2/http.h:682-699 | a text can travel in a request line if and only if it has no space, line end, NUL or number sign |
| RequestLines.SpoiltQuery | libevent-2.0.19/include/event2/http.h:682-699 | one piece without a key or an equals sign leaves the handlers without any parameters |
| RequestLines.PercentIs | libevent-2.0.19/include/event2/http.h:682-699 | a percent sign and two hex digits, in either case, stand for the character of that code |
| RequestLines.HexExactly | libevent-2.0.19/include/event2/http.h:682-699 | which characters are hex digits |
| RequestLines.OthersDecode | libevent-2.0.19/include/event2/http.h:682-699 | a plus is a space, a percent sign without two hex digits stays, and so does every other character |
| RequestLines.EscapedDecodes | libevent-2.0.19/include/event2/http.h:682-699 | decoding undoes the usual escaping, and what is escaped can travel |
| RequestLines.EscapedArrives | libevent-2.0.19/include/event2/http.h:682-699 | so any value at all arrives if its sender escapes it |
| Rpc.UnmarshalExactly | libevent-2.0.19/bin/event_rpcgen.py:242-302 | decoding record by record into a fresh message, with the final check for completeness, gives a message if and only if every tag is known and each field holds the decoded payloads of its own records: at most one unless it is an array, at least one if it is required |
| Rpc.MsgTrip | libevent-2.0.19/bin/event_rpcgen.py:221-302 | whatever message marshal can be called on, unmarshalling the result succeeds, and gives that message with each required field that was not set holding its initial value, at every depth |
| Rpc.RoundTripExactly | libevent-2.0.19/bin/event_rpcgen.py:221-302 | a message comes back as it was if and only if it is complete |
| Rpc.FilledComplete | libevent-2.0.19/bin/event_rpcgen.py:283-302 | what comes back is always complete and fits the schema, even when what was sent was not complete |
| Rpc.RoundTrip | libevent-2.0.19/bin/event_rpcgen.py:221-302 | for every schema with distinct tags, self-referencing or not, every complete message comes back |
| Rpc.OrderIndependent | libevent-2.0.19/bin/event_rpcgen.py:242-302 | acceptance and result depend only on each tag's own records |
| Rpc.OrderIndependentAtEveryDepth | libevent-2.0.19/bin/event_rpcgen.py:242-302 | any number of swaps of adjacent records with different tags, in the stream or in the structs inside it, changes neither acceptance nor result |
| Rpc.ReencodedStreamDecodes | libevent-2.0.19/bin/event_rpcgen.py:221-302 | any accepted stream encodes again to one in schema order that decodes to the same message |
| Rpc.UnmarshalledOk | libevent-2.0.19/bin/event_rpcgen.py:242-327 | an accepted message fits its schema and is complete, at every depth |
| Rpc.MarshalOrdered | libevent-2.0.19/bin/event_rpcgen.py:221-240 | the records come in the order of the entries |
| RpcValues.DecodeValueExactly | libevent-2.0.19/bin/event_rpcgen.py:242-281 | which payloads decode for each kind of field, and to what: integers in range, bytes of just the length of a fixed field, any bytes, a string up to its first NUL, a stream that is accepted |
| RpcValues.CStringExactly | libevent-2.0.19/bin/event_rpcgen.py:242-281 | a decoded string is what comes before the first NUL byte |
| RpcValues.EncodeValueIs | libevent-2.0.19/bin/event_rpcgen.py:221-240 | what each value is on the wire |
| RpcValues.UnsetComesBack | libevent-2.0.19/bin/event_rpcgen.py:221-302 | a required field that was not set comes back as zero, as zero bytes of its length, or as no bytes |
| RpcValues.AcceptedHolds | libevent-2.0.19/bin/event_rpcgen.py:242-302 | an accepted stream has no unknown tag, a record for each required entry, at most one for each that is no array, and its values are those records' payloads decoded |
| RpcValues.ArrayInOrder | libevent-2.0.19/bin/event_rpcgen.py:1201-1223 | the values of an array are in the order of their records |
| RpcCode.Struct.AddEntry | libevent-2.0.19/bin/event_rpcgen.py:53-61 | an entry is refused if and only if its tag is taken; tags stay distinct |
| RpcCode.BuildStruct | libevent-2.0.19/bin/event_rpcgen.py:1409-1430 | a list of entries makes a struct if and only if its tags are distinct |
| RpcCode.MarshalMsg | libevent-2.0.19/bin/event_rpcgen.py:221-240 | the generated loops write what the specification says |
| RpcCode.UnmarshalMsg | libevent-2.0.19/bin/event_rpcgen.py:242-281 | the generated loop with its early returns computes what the specification says |
| RpcCode.UnmarshalValue | libevent-2.0.19/bin/event_rpcgen.py:242-281 | the code of one case computes what the specification says |
| GrowableArray.RunOk | libevent-2.0.19/bin/event_rpcgen.py:1133-1176 | in every mix of adds, unmarshalled elements and failures the length counts the elements put in, the capacity is 0 or a power of two, at least the length and at most twice the length and two, and at most twice the length if no element failed |
| GrowableArray.TightExactly | libevent-2.0.19/bin/event_rpcgen.py:1156-1174 | a step leaves the array at least half full unless it is an add that expands and then cannot make its element when there was room |
| GrowableArray.CopiesAmortised | libevent-2.0.19/bin/event_rpcgen.py:1139-1150 | n insertions copy fewer than 2n slots in all |
| GrowableArray.FailedAddsLoosen | libevent-2.0.19/bin/event_rpcgen.py:1156-1174 | three adds after which an array of one element has four slots |
| GrowableArray.NextOk | libevent-2.0.19/bin/event_rpcgen.py:1201-1223 | a step that inserts finds room for its element, and one that fails leaves the length as it was |
| GrowableArray.GrowableArray.Expand | libevent-2.0.19/bin/event_rpcgen.py:1139-1153 | the buffer doubles and keeps its elements, or nothing changes |
| GrowableArray.GrowableArray.AddElement | libevent-2.0.19/bin/event_rpcgen.py:1156-1174 | the element is written in bounds, behind the others; on any failure length and elements are as before |
| GrowableArray.GrowableArray.UnmarshalElement | libevent-2.0.19/bin/event_rpcgen.py:1201-1223 | likewise, with the room made before the element is decoded |

## Left out

- Decimal.AtoiReads: numbers of any size; atoi overflows.
- DataNode.DataNode.OnMasterRecv: requires that a put from the master has an id, because without one the code calls `atoi` on a null string.
- Rpc.MsgTrip: requires that required strings and structs are set, because marshal crashes without them; so do Rpc.RoundTripExactly and Rpc.FilledComplete.
- Cluster.ReplicasAgree: has the hypothesis that every event is harmless; `Cluster.RunAgreesExactly` says what that is worth. A client's change, its accept and its sweep are one step there; `InFlight`, `Overlap`, `QuietStores` and `OverlapRuns` split it.
- QuietStores.QuietStoresEqual: its condition suffices and is not necessary, nor is that of OverlapRuns.MildStoresReplay; OverlapRuns.RunKeepsStoresExactly has the exact condition for stores that follow the history, and Overlap.OverlapAgreesExactly that for two changes.
- InFlight.RunConservesExactly: a node may have several requests under way, though the code waits for each answer; a request is lost only when its node goes down.
- Joining.ProperRunIsHarmless: a sufficient condition, how the service is meant to be used; Cluster.RunAgreesExactly has the exact one.
- A node is its whole address: one that came back with another address for clients would be another node.
- LockRuns.GrantedTwiceReleasedBetween: has the hypothesis that unlocks are safe, as has Delivery.OneDeliveryPerLease; LockRuns.GrantedTwiceEndedBetween and Delivery.DeliveredTwiceEndedBetween hold of every run, and `LockRuns.RunKeepsLeasesExactly` says what the hypothesis is worth.
- MsgLock.MsgLock.Fire: reading the head and releasing it is one step; the code drops the chain's mutex between the two.
- MasterRuns.CatchUpExactly: a recovery takes the gate, compares sizes and reads the log in one step. The removal of an old gate entry that the code makes before it waits for the worker is a timeout step of the model.
- Master.Sweep: reads the clock once; the code reads it for every node it asks about.
- LeaseTime.LeaseLasts: has the hypothesis that unlocks are safe, as has LeaseTime.DeliveryLasts; LeaseTime.LeaseLastsUnlessLeftover and LeaseTime.LeftoverEnds hold of every run and say what it is worth.
- The heartbeat's probing thread: its answers and its giving up are steps of `Membership` at any time, its counting of failures is left out. In `Cluster` a node is alive or not as the model pleases; one that has crashed while it still counts as alive, and loses a command, is not modelled.
- HTTP, sockets and event loops: a dispatch is delivered at once; a lost reply to a lock request is not modelled.
- Threads, mutexes, condition variables and the waiting of the event thread: steps are atomic and the clock is a parameter.
- SQL text, SQLite's case-insensitive names and the limits of its integers: only the tables' behaviour. `hasMessage` and `messageCount` leave their result uninitialised when no row comes back; false and 0 are taken.
- The logger's shell commands and the sizes of the buffers it and others print into.
- The widths of C integers outside the marshalled ones, and the overflow of a doubled capacity.
- Memory ownership and the `delete` calls on header values.
- URIs: characters that no request line can carry end a line, the rest is taken as it is; header names are compared exactly, though the library ignores their case.
- The byte encoding of tags and payloads: an integer, a byte string and a nested stream are different payloads.
- The generator's parsing of its input and the layout of the text it writes; the accessors of the generated code.
- The master's replies: `SQSMaster.h` says that the reply to a recovery is the log messages, while the code sends those as requests of their own and replies with a fixed text; the model has what is sent, and of the replies only success or failure.
- Listing queues and getting a message by id, and the client, which would only add easy members.
