# Plato: timing wheel, connection state and transport

This project models the parts of plato in which many functions share state and proves what they keep.

**Timing wheel** (`common/timingwheel`). A chain of lazily created wheels shares one delay queue. `WheelSpec` has the
wheels as values and `TimingWheel` the objects that are changed in place: buckets, timers with their back pointers,
the delay queue over the array heap of `PriorityQueue`, the chain of overflow wheels. `WheelInvariant` and `WheelStep`
relate the clocks of all levels, the buckets and the queue; `WheelRefinement` shows that any run of `AfterFunc`, `Stop`
and drains fires what a plain set of timers would fire; `WheelBounds` shows when no int64 computation overflows.
`WakeupProtocol` and `StopProtocol` take the two delicate handshakes apart into micro-steps: `Offer` against `Poll`, and
`Timer.Stop` against `Flush`.

**Connection state** (`state`, with the client side of `common/sdk`). `StateSpec` splits the server's state into what
a crash loses (table, timers, lock texts) and what Redis keeps, and gives each handler, timer and restart as a step.
`StateInvariant` ties the halves together over every run, `StateReplies` says what is sent and `StateRoutes` which devices
have a route; `Retransmission`, `UpProtocol` and `TimedLiveness` prove the promises made to clients; `StateServer` has the objects that carry out the steps in place; `KeyCodec` shows that the
texts used as Redis keys and entries mean what the structured keys of the model mean.

**Transport and identities.** `ConnId` is the connection-id generator on 64-bit words, `TcpFraming` the length-prefixed
frames over a stream that may be cut anywhere.

**Flow graphs** (`common/bizflow`). `BizGraph` builds the graph. `BizRun` interleaves the master loop with its workers
on a pool of so many workers and a channel with so much room. `BizOutcome` says what each way a node can end leads to,
and when the master returns. `BizTermination` shows that runs end; `BizStuck` and
`BizStuckExact` when they end stuck, with the particular runs built in `BizSchedule`; `BizDoubleClose`, with
`BizLateAbort` and `BizSingleWorker`, when the master closes its channel twice. `Bizflow` has the objects.

Time is an integer in milliseconds, passed in or held in a field. Starting a timer's function means recording it as
fired. Integers are unbounded except where a width matters: `WheelBounds` for the wheel's int64, `ConnId` for its words,
`UpProtocol` for the 64-bit client ids, `StateSpec` for the signed limit of a Redis counter, `KeyCodec` for parsed ids,
`TcpFraming` for the 32-bit length.

Where the code does less than its comments or names suggest, the code is modelled, and a theorem says when it does meet
the promise:

- A pushed message whose fields all have their default values marshals to zero bytes, which `getLastMsg` takes for
  absent. The server itself pushes with ids 0/0, so an empty upstream body is stored and never pushed again
  (`Retransmission.RePushExact`, `EmptyBodyNotRetried`).
- A login or reconnect for a connection that is already live leaves the old object's timers running
  (`StateInvariant.LoginExact`, `ReConnExact`).
- A reconnect whose old connection is no longer live logs the new one in for device 0 (`StateInvariant.ReConnDevice`).
- Logging out one of two live connections of a device deletes the route record the other one needs
  (`StateRoutes.AllRoutedExact`, `RouteExact`).
- A late ack removes a newer message that carries the same ids, unacknowledged (`Retransmission.LateAckExact`); the
  server's own pushes all carry 0/0 (`OwnPushesShareIds`).
- A logout forgets what was accepted, so that a duplicate that comes after it is accepted again
  (`UpProtocol.AcceptedOnceExact`).
- A heartbeat does not stop an armed reconnect timer (`TimedLiveness.HeartbeatsDoNotSave`).
- An upstream message for a connection that is not live is counted, and then the handler panics
  (`UpProtocol.OnlyLiveExact`).
- `Timer.Stop` may answer false for a timer that is neither started nor stopped (`StopProtocol.StopCanMiss`): exactly
  while a flush moves it between two buckets (`StopProtocol.FalseAnswerExact`).
- A first node with the empty name, and only such a one, defeats the check for a second independent node
  (`BizGraph.SecondSourceRefused`).
- The master hands tasks over before it takes the next event, and workers keep their place until their event is taken. A
  run therefore gets stuck when more nodes are ready than workers and channel can take
  (`BizStuckExact.StickExact`); with the channel the engine makes by default, which has no room, this happens in exactly
  the graphs in which more nodes than there are workers do not wait for each other
  (`BizStuckExact.StickExactUnbuffered`). The graph A; B and C after A; D after both gets stuck on one worker.
- The master closes its channel a second time, and panics, in some run of exactly the graphs and pools on which it can
  take the last node's execOK while another event waits in the channel (`BizDoubleClose.ClosesTwiceExact`). On two
  workers or more on which the graph cannot get stuck, this is so iff the channel has room and some other node is no
  ancestor of the last one (`BizDoubleClose.DoubleCloseExact`). Without room in the channel it never happens.
- An error that a node's meta data does not classify leaves the node's last event as it is: on a first run nothing more
  happens to the node, and after a retry it counts as the outcome before (`BizOutcome.EventExact`, `OtherHandled`).
- A graph whose only independent node has the empty name is built, and then `Run` reports that it was not created
  (`Bizflow.Graph.StartRun`).
- The SDK cuts the length of a packet to 32 bits (`TcpFraming.PacketExact`).

## Model

| member | source | states |
|---|---|---|
| Truncation.TruncateFloor | common/timingwheel/utils.go:10-15 | for instants, truncation is the greatest multiple of the tick not above x |
| Truncation.TruncateUnique | common/timingwheel/utils.go:10-15 | the only multiple of the tick within one tick below x is the truncation |
| Truncation.TruncateToZero | common/timingwheel/utils.go:8-15 | before the epoch truncation rounds up to the least multiple not below x; without a positive tick it changes nothing |
| Truncation.TruncateNested | common/timingwheel/utils.go:10-15 | truncating to a fine tick first does not change truncation to a coarser tick |
| Truncation.DueIff | common/timingwheel/timingwheel.go:64-68 | x lies before the end of the slot at c iff its truncation is at most c |
| Truncation.TruncateSlot | common/timingwheel/timingwheel.go:70-76 | two slots within reach of one clock that share a bucket are the same slot |
| WheelSpec.NewWheelClocked | common/timingwheel/timingwheel.go:47-61 | a new wheel's tick, interval and clock fit together |
| WheelSpec.BeyondFalls | common/timingwheel/timingwheel.go:87-104 | `add` terminates: going up a level strictly lowers how far the expiration lies beyond the wheel's reach |
| WheelSpec.AdvanceClocked | common/timingwheel/timingwheel.go:119-131 | advancing keeps every level's clock equal to the clock below truncated to its own tick |
| WheelSpec.OtherBucket | common/timingwheel/timingwheel.go:70-76 | replacing one bucket leaves every other bucket of every level as it is |
| WheelInvariant.AddedBucketOK | common/timingwheel/timingwheel.go:70-84 | the bucket `add` chooses is idle or already carries the same expiration, so its timers share one slot |
| WheelInvariant.AddInv | common/timingwheel/timingwheel.go:64-105 | `add` refuses exactly the timers already due at the base, so an overflow wheel never refuses; otherwise the timer is gained, at most one idle bucket is offered, and every invariant is kept |
| WheelInvariant.OverflowEdge | common/timingwheel/timingwheel.go:87-104 | the end of an overflow wheel's current slot is at least one tick of the wheel below away |
| WheelInvariant.AdvanceInv | common/timingwheel/timingwheel.go:119-131 | advancing to the least queued expiration keeps every bucket's timers in one slot within reach of its level's clock |
| WheelStep.AddBelow | common/timingwheel/bucket.go:114-133 | a timer taken off the bucket being flushed never returns to it: it is due, or lands strictly below |
| WheelStep.FlushOne | common/timingwheel/bucket.go:118-130 | one round of the flush loop keeps the invariant, loses no timer, and fires only if the slot has come |
| WheelStep.FlushLoopInv | common/timingwheel/bucket.go:114-133 | the flush empties the bucket, conserves all timers and lowers the weight by at least one for each of them |
| WheelStep.QueuedBucket | common/timingwheel/timingwheel.go:141-147 | a popped entry names a bucket whose expiration is the entry's priority |
| WheelStep.StepInv | common/timingwheel/timingwheel.go:141-147 | popping a least entry keeps the invariant, sets the base clock to its expiration, fires only timers of that slot and moves all others of the bucket strictly down |
| WheelRefinement.DrainTerminates | common/timingwheel/timingwheel.go:134-153 | draining terminates by the weight of the wheel and the length of the queue |
| WheelRefinement.DrainInv | common/timingwheel/timingwheel.go:134-153 | a drain pops in ascending order, fires in slot order exactly the timers due, and leaves none due behind |
| WheelRefinement.AfterFuncRefines | common/timingwheel/timingwheel.go:167-174 | setting a timer is adding it to the flat set, or starting it at once iff it is due by the base clock |
| WheelRefinement.StopInv | common/timingwheel/bucket.go:40-53 | stopping a held timer removes that one and keeps the invariant |
| WheelRefinement.NextRefines | common/timingwheel/timingwheel.go:64-153 | every event on the wheel is one event on the flat set of timers |
| WheelRefinement.InitialReachable | common/timingwheel/timingwheel.go:30-61 | the first state of every run is reachable, holds no timer, and its clock is the start less its remainder by the tick |
| WheelRefinement.RunRefines | common/timingwheel/timingwheel.go:64-153 | in every reachable state the invariant holds and held, fired and stopped timers add up to those set |
| WheelRefinement.DrainedExactly | common/timingwheel/timingwheel.go:64-131 | after a run that drained to `now`, a timer has fired exactly as often as it was set and not stopped if its truncated expiration is at most `now`, and otherwise not at all |
| WheelRefinement.UnitTickExactly | state/timer.go:11-22 | with the 1 ms tick of the state server: fired iff expired, never early, never missed, once |
| WheelRefinement.EventsEnabled | common/timingwheel/timingwheel.go:64-174 | every call on a reachable wheel has an outcome |
| WheelBounds.RunBounded | common/timingwheel/timingwheel.go:64-131 | clocks and overflow ticks never pass the latest expiration in use |
| WheelBounds.NoOverflow | common/timingwheel/timingwheel.go:64-131 | if (wheelSize + 1) times the latest expiration and the base interval fit, no tick, interval or slot bound overflows int64 in any reachable state |
| HeapOrder.SiftUpHeap | common/timingwheel/delayqueue.go:31-39 | sifting up restores heap order as a permutation |
| HeapOrder.SiftDownHeap | common/timingwheel/delayqueue.go:31-39 | sifting down restores heap order as a permutation |
| HeapOrder.RisesToRoot | common/timingwheel/delayqueue.go:112-117 | the new item ends at index 0 iff its priority is strictly below all others |
| HeapOrder.PushedHeap | common/timingwheel/delayqueue.go:41-53 | pushing keeps the heap, adds exactly the item, and puts it at the root iff it precedes everything else |
| HeapOrder.HeadLastHeap | common/timingwheel/delayqueue.go:69-81 | swapping the root to the end and sifting leaves a heap of the rest |
| HeapOrder.RootLeastAll | common/timingwheel/delayqueue.go:74-77 | the root of a heap is a minimum |
| PriorityQueues.PriorityQueue.Swap | common/timingwheel/delayqueue.go:35-39 | two items change places and their indexes follow |
| PriorityQueues.PriorityQueue.Push | common/timingwheel/delayqueue.go:41-53 | the item is last and knows it; the array doubles exactly when full |
| PriorityQueues.PriorityQueue.Pop | common/timingwheel/delayqueue.go:55-67 | the last item leaves with index -1; the array is halved exactly when longer than 25 and less than half full, and holds all items |
| PriorityQueues.PriorityQueue.Up | common/timingwheel/delayqueue.go:31-39 | the loop of container/heap's up on the array is SiftUp |
| PriorityQueues.PriorityQueue.Down | common/timingwheel/delayqueue.go:31-39 | the loop of container/heap's down on the array is SiftDown |
| PriorityQueues.PriorityQueue.HeapPush | common/timingwheel/delayqueue.go:112-115 | the queue gains the item in heap order and its index is 0 iff it precedes all others |
| PriorityQueues.PriorityQueue.PeekAndShift | common/timingwheel/delayqueue.go:69-81 | a least item iff its priority is at most `max`, otherwise the exact wait, 0 for an empty queue; indexes and heap order kept |
| TimingWheels.Bucket.SetExpiration | common/timingwheel/bucket.go:79-81 | true iff the value changed |
| TimingWheels.Bucket.Add | common/timingwheel/bucket.go:83-91 | the timer is last in the list and points back to the bucket |
| TimingWheels.Bucket.Remove | common/timingwheel/bucket.go:93-112 | true iff the timer points to this bucket; then it is unlinked once and points nowhere |
| TimingWheels.DelayQueue.Offer | common/timingwheel/delayqueue.go:108-115 | the queue gains exactly the entry of the bucket |
| TimingWheels.DelayQueue.Shift | common/timingwheel/delayqueue.go:129-141 | the least entry iff it is due; otherwise nothing changes and none is due |
| TimingWheels.TimingWheel.constructor | common/timingwheel/timingwheel.go:47-61 | idle buckets, truncated clock: the new wheel of the specification, with no timer in any bucket |
| TimingWheels.NewTimingWheel | common/timingwheel/timingwheel.go:30-44 | a wheel with its queue satisfies all invariants and is the initial state of every run |
| TimingWheels.TimingWheel.Insert | common/timingwheel/timingwheel.go:64-105 | in place through the chain of wheels, what the specification's `Add` does, and which bucket to offer |
| TimingWheels.TimingWheel.Add | common/timingwheel/timingwheel.go:64-105 | the same with the offer made |
| TimingWheels.TimingWheel.AddOrRun | common/timingwheel/timingwheel.go:109-117 | held, or started when refused |
| TimingWheels.TimingWheel.AdvanceClock | common/timingwheel/timingwheel.go:119-131 | in place, what the specification's `AdvanceClock` does at every level |
| TimingWheels.TimingWheel.Reinsert | common/timingwheel/bucket.go:118-130 | one round of the flush loop in place |
| TimingWheels.TimingWheel.Flush | common/timingwheel/bucket.go:114-133 | the whole flush in place; the bucket ends empty and idle |
| TimingWheels.TimingWheel.Poll | common/timingwheel/delayqueue.go:127-141 | pops the least entry if due and performs the consumer step on it, keeping all invariants of the objects |
| TimingWheels.TimingWheel.Drain | common/timingwheel/timingwheel.go:134-153 | terminates, and is a drain of the specification |
| TimingWheels.TimingWheel.AfterFunc | common/timingwheel/timingwheel.go:167-174 | a fresh timer, in a bucket of the wheel iff not yet due, and the AfterFunc event of the specification |
| TimingWheels.TimingWheel.Stop | common/timingwheel/bucket.go:40-53 | for every timer that was set: true iff a bucket still holds it, and then the Stop event of the specification; after false nothing has changed, which is the specification's Stop event iff no other timer with the same task and expiration is held |
| TimingWheels.SetAndStop | common/timingwheel/timingwheel_examples_test.go:25-40 | a timer set and stopped at once is stopped iff it was not yet due, and then nothing fires |
| WakeupProtocol.NextInv | common/timingwheel/delayqueue.go:109-173 | every micro-step keeps: at most one Offer won the swap and has not sent, exactly when Poll is receptive and not marked sleeping |
| WakeupProtocol.SenderReleased | common/timingwheel/delayqueue.go:117-122 | no stuck handshake: a blocked sender is released by at most one step of Poll |
| WakeupProtocol.QuietPollWaitsForHead | common/timingwheel/delayqueue.go:143-169 | no lost wakeup: once all Offers are done, a waiting Poll waits for exactly the current head and can be woken |
| WakeupProtocol.EarlierElementWakes | common/timingwheel/delayqueue.go:117-122 | while Poll sleeps past an earlier element, some Offer has its swap still to do, and it will wake Poll |
| WakeupProtocol.Conserved | common/timingwheel/delayqueue.go:109-181 | every element offered is queued, in Poll's hand or delivered, exactly once |
| WakeupProtocol.PassExact | common/timingwheel/delayqueue.go:129-141 | over every run, by the clock reading of a pass: if some queued element is due, a least one is taken; otherwise none is, and Poll goes to sleep for exactly the time until the first is due, or without a timer on an empty queue |
| WakeupProtocol.DeliveredDue | common/timingwheel/delayqueue.go:171-173 | every element delivered had a priority at most the clock reading of the pass that took it, and was a least one of the queue then |
| WakeupProtocol.DeliversExact | common/timingwheel/delayqueue.go:143-173 | the next thing Poll does after looking at the queue is to deliver iff an element was due; otherwise it is woken, or its timer fires if the queue was not empty |
| WakeupProtocol.TimerSuffices | common/timingwheel/delayqueue.go:155-169 | once the clock has moved on by the time Poll waits for, the next pass takes an element |
| WakeupProtocol.WokenFor | common/timingwheel/delayqueue.go:117-122 | Poll is woken only by an Offer whose element was before all others when pushed and whose swap found Poll sleeping |
| StopProtocol.NextInv | common/timingwheel/bucket.go:40-133 | every micro-step of creator, flusher and stoppers keeps the agreement of pointer, element, lists and locks |
| StopProtocol.StoppedNeverStarts | common/timingwheel/bucket.go:34-53 | if a Stop answers true anywhere in a run, the function is started nowhere in it |
| StopProtocol.StartsOnce | common/timingwheel/timingwheel.go:109-117 | the function is started at most once |
| StopProtocol.OneStopWins | common/timingwheel/bucket.go:40-53 | of all concurrent calls at most one answers true |
| StopProtocol.UnlinkSound | common/timingwheel/bucket.go:93-106 | an element is only unlinked from the list it is in, under that list's mutex |
| StopProtocol.StopCanMiss | common/timingwheel/bucket.go:114-133 | a reachable run in which Stop answers false for a timer neither started nor stopped |
| StopProtocol.FalseAnswerExact | common/timingwheel/bucket.go:34-53 | in every run, a false answer is right, the timer being started or stopped, iff no flush is between clearing and setting the bucket pointer |
| StopProtocol.NoDeadlock | common/timingwheel/bucket.go:108-133 | a mutex holder can act, except a flusher waiting for a second mutex, and then that mutex's holder can |
| StateInvariant.LoginInv | state/cache.go:67-89 | a login of a connection that is not live keeps the invariant |
| StateInvariant.CloseInv | state/state.go:25-81 | a logout keeps it: slots, routes, counters and last messages are of live connections only |
| StateInvariant.CountedInv | common/cache/lua.go:17-21 | the script keeps every counter equal to the number of bodies accepted |
| StateInvariant.RestartRestores | state/cache.go:39-57 | from Redis alone the restart rebuilds exactly the live connections with their devices, in whatever order entries come |
| StateInvariant.NextInv | state/server.go:44-141 | every handler, timer, crash and recovery keeps the invariant |
| StateInvariant.RunInv | state/server.go:44-141 | in every reachable state: slots hold exactly (did, connID) of live connections in slot connID % n, routes lead to live connections of their device, no timer of a connection that is not live is pending, message timers agree with locks and stored messages, counters count |
| StateInvariant.LoginExact | state/cache.go:67-89 | a login keeps the invariant iff the connection is not live |
| StateInvariant.ReConnExact | state/cache.go:105-114 | a reconnect keeps it iff the new connection is not live or is the old one |
| StateInvariant.DeviceKept | state/cache.go:97-103 | over every stretch without a new login a connection is live for the same device or not live, restarts included |
| StateInvariant.ReConnDevice | state/cache.go:105-114 | over every run, a reconnect hands the old device over iff the old connection is still live, and logs in device 0 otherwise |
| StateInvariant.ConnStep | state/server.go:44-219 | a step changes of a connection's timers and lock only what it names, and of other connections nothing |
| StateInvariant.RestartStep | state/cache.go:91-95 | recovery arms a heart timer for every connection and a message timer exactly where a message is stored |
| StateInvariant.CrashRestoresTable | state/cache.go:39-114 | after any run a crash and recovery give the same connections and devices, and re-arm exactly the stored messages with their locks |
| StateInvariant.RecoveryOrderIrrelevant | state/cache.go:39-57 | the slots may be processed in any order |
| StateReplies.UpAnswered | state/server.go:128-170 | the next message of a session is acknowledged and its own body pushed with ids 0/0 to the connection it came from, and stored if that is live; any other sends and stores nothing; the counter exists afterwards and counts it |
| StateReplies.UpRestarts | state/server.go:128-170 | the server restarts iff it accepts a message of a connection that is not live or the counter is at its signed maximum |
| StateReplies.SessionAnswered | state/server.go:79-126 | each login and reconnect is acknowledged to the connection the command came from, and each logout tells the gateway which connection leaves, before that |
| StateReplies.OthersSilent | state/server.go:202-219 | a fired message timer sends the stored message unless it marshals to zero bytes; every other step sends nothing |
| StateReplies.SentExactly | state/server.go:44-219 | over every run, every acknowledgement, push and close is sent exactly as often as a step calls for it |
| StateReplies.LogoutsTold | state/state.go:75-80 | over every run, the gateway is told once for each login of a connection that has ended: logins are closes sent, plus one while it is live |
| StateReplies.StoredFrom | state/cache.go:168-186 | over every run, a stored message was appended for that connection or is the body of an upstream message accepted from it |
| StateReplies.PushedFrom | state/server.go:155-219 | and so was everything ever pushed to a connection |
| StateRoutes.RouteStep | state/state.go:25-81 | a login sets the route record of its device, a logout of any of its connections removes it, and no other step, restarts included, changes one |
| StateRoutes.RouteExact | state/cache.go:67-103 | at every state of every run: a device's record leads to c iff c was the last connection logged in for it and none of its connections was logged out since |
| StateRoutes.AllRoutedExact | state/state.go:65-68 | while every live connection's device has a record, a step keeps that iff it does not log out one of two live connections of a device (a reconnect restores it) |
| Retransmission.PendingKept | state/state.go:83-112 | a message stays pending and unchanged through every step but an ack with its ids, a newer message and a logout, crashes included |
| Retransmission.SettledExactly | state/state.go:155-171 | what those three do to it |
| Retransmission.RePushExact | state/server.go:202-219 | a fired message timer sends the stored message and is armed again iff the message does not marshal to zero bytes |
| Retransmission.EmptyBodyNotRetried | state/cache.go:206-208 | an accepted empty body is pushed, stored and never pushed again |
| Retransmission.DeadlineKept | state/state.go:90-93 | only a push moves the deadline of a pending message, and a restart sets it one retry interval from then |
| Retransmission.PushedAgain | state/server.go:202-219 | a message not settled is pushed again, unchanged, within every period longer than 100 ms and 100 ms more for each restart in it |
| Retransmission.NotPushedBefore | state/state.go:90-93 | over every run, after a push the message timer of the connection does not fire for 100 ms, whatever happens meanwhile |
| Retransmission.LateAckExact | state/state.go:155-171 | over every run: an ack for m0 that comes while m is pending leaves m pending iff the ids of m0 and m differ, and otherwise removes it |
| Retransmission.OwnPushesShareIds | state/server.go:155-169 | of two bodies accepted in a row, the ack of the first push removes the second, which is never sent again |
| UpProtocol.Chat.GetClientID | common/sdk/api.go:128-137 | the next id of the session, counted up with 64-bit wrap |
| UpProtocol.Chat.Send | common/sdk/api.go:55-68 | the packet carries the session's next id and the body |
| UpProtocol.Chat.ReConn | common/sdk/api.go:85-92 | all counters start again on the new connection |
| UpProtocol.AcceptExact | common/cache/lua.go:17-21 | a message is accepted iff its id is the number accepted before it, below the counter's limit |
| UpProtocol.AcceptedExactly | state/server.go:128-141 | each step extends the accepted bodies by the accepted one, clears them on logout, or leaves them |
| UpProtocol.OnlyLiveExact | state/server.go:128-141 | only live connections have accepted bodies; a step keeps that iff it does not accept a message of a connection that is not live |
| UpProtocol.CountsFromZero | state/cache.go:82-84 | if upstream messages are handled for live connections only, every new connection counts from zero |
| UpProtocol.SysRunInv | common/sdk/api.go:128-137 | over every run clients' next ids are the lengths of their logs and every packet carries its position in the log |
| UpProtocol.AcceptedArePrefix | common/sdk/api.go:55-68 | in order, exactly once: accepted bodies are a prefix of those sent on the connection, over any loss, duplication, reordering and crash |
| UpProtocol.AcceptedOnceExact | state/server.go:128-141 | over every run: no client id of a session is accepted twice iff nothing is accepted from it after a logout that came after an acceptance |
| UpProtocol.AcceptedOnce | common/cache/lua.go:17-21 | over every run in which upstream messages are handled for live connections only and connection ids are not reused: accepted ids strictly increase, and each acceptance carries the body at its position of the log |
| UpProtocol.NextPacketAccepted | state/server.go:135-140 | a delivered packet is accepted iff it carries the first body not yet accepted |
| TimedLiveness.PunctualStays | state/state.go:128-137 | over every run, a connection whose heartbeats come less than 5000 ms after its login and after each other is never logged out by a timer |
| TimedLiveness.StaysFifteen | state/state.go:128-153 | a connection is live for 15000 ms after its login and after each heartbeat that comes in time, unless closed on request |
| TimedLiveness.HeartFiresAtFive | state/state.go:128-153 | the heart timer of a silent connection fires exactly 5000 ms later and leaves a reconnect timer due 10000 ms after that |
| TimedLiveness.SilentLoggedOut | state/state.go:128-153 | a connection silent after its login or a heartbeat is logged out by a timer exactly 15000 ms later, unless closed on request before, in a stretch without restarts |
| TimedLiveness.HeartbeatsDoNotSave | state/state.go:139-153 | an armed reconnect timer keeps its deadline through any number of heartbeats |
| TimedLiveness.ClockNeverStuck | state/timer.go:19-22 | time can pass or a live connection's timer is due |
| TimedLiveness.ClockPasses | state/timer.go:19-22 | from every reachable state some continuation of timers and time alone passes any given instant |
| TimedLiveness.SilenceEnds | state/state.go:128-153 | from every state right after a login or heartbeat some continuation of timers and time alone logs the connection out exactly 15000 ms later |
| KeyCodec.SlotEntryRoundTrip | state/cache.go:217-234 | unmarshalling inverts marshalling for all pairs of 64-bit ids |
| KeyCodec.NoBarReadsAsZero | state/cache.go:219-221 | a text without a bar reads as the pair of zeros, though it is not their entry |
| KeyCodec.LockInjective | state/state.go:158-161 | lock texts are equal iff both ids are, and none is empty |
| KeyCodec.TextInjective | common/cache/cosnt.go:5-10 | all key names of all kinds are distinct, for every session text |
| KeyCodec.PatternExact | state/state.go:47-51 | the logout pattern matches exactly the counter keys of its slot and connection |
| KeyCodec.PatternMatchesKey | state/state.go:47-51 | among all stored keys it matches exactly the counters of that connection |
| KeyCodec.LogoutPurges | state/state.go:45-61 | logout deletes all counters of its connection and no other key of the store |
| StateServer.ConnState.constructor | state/cache.go:59-65 | a new object has only its heart timer armed |
| StateServer.ConnState.ReSetHeartTimer | state/state.go:128-137 | the heart timer is armed for 5000 ms and nothing else changes |
| StateServer.ConnState.ReSetReConnTimer | state/state.go:139-153 | the reconnect timer is armed for 10000 ms and nothing else changes |
| StateServer.ConnState.ReSetMsgTimer | state/state.go:102-112 | message timer, for 100 ms, and lock are set together |
| StateServer.Store.CompareAndIncr | common/cache/lua.go:17-21 | the script's answer and what it leaves, a missing counter created as zero included |
| StateServer.CacheState.ConnLogin | state/cache.go:67-89 | in place, the Login step; a displaced object keeps its timers |
| StateServer.CacheState.ConnLogOut | state/cache.go:97-103 | in place, the Logout step and the device, 0 if not live |
| StateServer.CacheState.CloseConn | state/state.go:25-81 | in place, the Close step over memory and Redis |
| StateServer.CacheState.ReConn | state/cache.go:105-114 | in place, logout of the old and login of the new connection with the old device |
| StateServer.CacheState.ReSetHeartTimer | state/cache.go:116-120 | in place, the Heartbeat step |
| StateServer.CacheState.HeartFires | state/state.go:134-136 | the heart timer's function arms the reconnect timer of its own object, in the table or not |
| StateServer.CacheState.ReConnFires | state/state.go:148-152 | the reconnect timer's function logs out by id |
| StateServer.CacheState.MsgFires | state/state.go:91-93 | the message timer's function pushes again |
| StateServer.CacheState.GetLastMsg | state/cache.go:199-215 | found iff stored with at least one byte |
| StateServer.CacheState.RePush | state/server.go:202-219 | sends the stored message and arms the timer with its lock |
| StateServer.CacheState.AppendLastMsg | state/cache.go:168-187 | stores message, lock and timer together; an error iff not live |
| StateServer.CacheState.AckLastMsg | state/state.go:155-171 | deletes and stops only for equal ids |
| StateServer.CacheState.UpMsg | state/server.go:128-171 | the Up step, or a panic exactly when the script fails or an accepted message has no live connection |
| StateServer.CacheState.ConnReLogin | state/cache.go:91-95 | one entry logged in again, with its stored message |
| StateServer.CacheState.InitLoginSlot | state/cache.go:39-57 | the loops process every entry of every slot exactly once |
| StateServer.CacheState.CrashAndRecover | state/cache.go:29-57 | memory lost, then the Restart step |
| StateServer.CacheState.Handle | state/server.go:44-75 | each command that does not panic is its step of the transition system |
| StateServer.CacheState.Serve | state/server.go:44-75 | a command, with the restart after a panic, is one step and keeps the invariant |
| StateServer.CommandServed | state/server.go:44-152 | by the table and what is sent: what each kind of command does for the connection it came from, and an ack for the one it names |
| ConnId.ConnIDGenerater.NextID | gateway/connection.go:82-103 | the answer and new state for given clock readings, spinning included; a clock gone backwards changes nothing |
| ConnId.MaxSequenceValue | gateway/connection.go:17-17 | the mask is 2^16 - 1 |
| ConnId.MakeIDValue | gateway/connection.go:100-101 | shifts and ors give the low 48 bits of the milliseconds, then the sequence |
| ConnId.DecodeExact | gateway/connection.go:13-23 | an id gives back its sequence always and its reading iff the milliseconds fit 48 bits |
| ConnId.VersionBitExact | gateway/connection.go:13-23 | the top bit is zero iff bit 47 of the milliseconds is |
| ConnId.IdsOrdered | gateway/connection.go:100-101 | ids are ordered as (reading, sequence) |
| ConnId.NextIncreases | gateway/connection.go:82-103 | an issued id is above the last one; backwards iff the reading is below the last stamp |
| ConnId.IdsIncrease | gateway/connection.go:82-103 | over every run ids strictly increase, hence are unique |
| ConnId.IdsDecode | gateway/connection.go:82-103 | over every run each id decodes to a reading of its call and a 16-bit sequence, top bit zero |
| ConnId.NextIdExact | gateway/connection.go:82-103 | over every run, by the last id issued and the clock: the next sequence number in the same millisecond while it is below 65535, after that the first later reading with sequence 0 (or waiting when there is none), sequence 0 for a later reading, an error for an earlier one |
| ConnId.FirstIdExact | gateway/connection.go:82-103 | the first id of a generator has its first reading and sequence 0 |
| TcpFraming.MarshalLayout | common/tcp/coder.go:13-17 | four bytes that read in base 256 from the left are the length, and then the data |
| TcpFraming.ParseLayout | common/tcp/read.go:11-31 | a reader takes the length from the first four bytes in that way, refuses zero, and takes that many bytes |
| TcpFraming.FrameExact | common/tcp/coder.go:13-17 | a frame reads back, whatever follows, iff its length field is the length of its data and not zero |
| TcpFraming.PacketExact | common/sdk/net.go:91-95 | a packet of the SDK reads back iff it is not empty and shorter than 2^32 bytes |
| TcpFraming.SendData | common/tcp/write.go:6-20 | whatever the sizes of the writes, all bytes are sent once and in order, or a prefix on failure |
| TcpFraming.ReadFixedData | common/tcp/read.go:34-50 | whatever the sizes of the reads, the buffer holds the next bytes of the stream and exactly these are consumed |
| TcpFraming.ReadData | common/tcp/read.go:11-31 | without connection failures, a frame exactly when parsing the stream finds one, and that frame |
| TcpFraming.Exchange | common/tcp/read.go:11-31 | any list of messages goes through unchanged and in order under any fragmentation on both sides |
| TcpFraming.StreamReadsBack | common/tcp/coder.go:13-17 | repeated parsing of a stream of frames gives back the list and the rest |
| TcpFraming.StreamInjective | common/tcp/coder.go:13-17 | two lists of messages with the same bytes are the same list |
| BizGraph.BuildExact | common/bizflow/graph.go:20-48 | for every list of nodes with distinct names: it builds a graph iff each node depends on earlier ones only and of two independent ones the earlier has the empty name; then first and last are as named |
| BizGraph.AncestorEarlier | common/bizflow/graph.go:20-48 | in every graph that is built, insertion order is a topological order, so there is no cycle |
| BizGraph.SingleSource | common/bizflow/graph.go:26-32 | the node remembered as the first is the only source iff the first node added alone is independent |
| BizGraph.ReachedFromFirst | common/bizflow/graph.go:36-47 | every node is reached from the one remembered as the first iff the first node added alone is independent |
| BizGraph.EmptyNameHidesSource | common/bizflow/graph.go:26-32 | after any independent node with the empty name a second one is accepted |
| BizGraph.SecondSourceRefused | common/bizflow/graph.go:26-32 | every graph that is built from a given first node has one independent node iff that node has a name |
| BizRun.NextInv | common/bizflow/graph.go:77-159 | every step of master, pool and workers keeps: counters count unprocessed dependencies, each node has one task or event exactly while ready and not done, retries bound starts, pool and channel keep their bounds |
| BizRun.ReleasedExactly | common/bizflow/graph.go:114-121 | processing a node submits exactly the nodes for which it was the last dependency |
| BizRun.DepsNumExact | common/bizflow/graph.go:114-121 | depsNum is always the number of dependencies whose execOK is not yet processed |
| BizRun.StartsAfterAncestors | common/bizflow/graph.go:50-60 | while a node runs all its ancestors have completed, so reading them with GetNode does not panic |
| BizRun.StartsBounded | common/bizflow/graph.go:92-96 | a node starts at most 1 + RetryNum times and never twice at once |
| BizRun.LastAfterAncestors | common/bizflow/graph.go:108-112 | when the last node's execOK is processed all its ancestors have completed |
| BizOutcome.VerdictIs | common/bizflow/graph.go:140-158 | a classified outcome is the one that counts until the node ends again |
| BizOutcome.EventExact | common/bizflow/graph.go:140-158 | over every run, a node's event tells the last outcome its meta data classifies, and none when there was none |
| BizOutcome.RetryHandled | common/bizflow/graph.go:92-96 | after a retryable error the node is to be handed over again for exactly one retry; with none left nothing more happens to it; the master goes on either way |
| BizOutcome.FatalHandled | common/bizflow/graph.go:97-100 | after an error that is not retryable the master has returned, the channel is closed if it was the last node, and nothing more happens to the node |
| BizOutcome.AbortHandled | common/bizflow/graph.go:101-103 | after an abort the channel is closed and the master has returned, or panicked if it was closed before |
| BizOutcome.OtherHandled | common/bizflow/graph.go:86-106 | after errors that are not classified alone the master goes on and nothing more happens to the node |
| BizOutcome.SuccessHandled | common/bizflow/graph.go:87-91 | after a success exactly the nodes whose last open dependency it was are to be handed over, the last node closes the channel, and nothing more happens to the node |
| BizOutcome.GivenUpAfter | common/bizflow/graph.go:92-96 | a retryable error is not retried iff the node was started 1 + RetryNum times |
| BizOutcome.ReturnsWhen | common/bizflow/graph.go:86-106 | the master returns only after an error that is not retryable or an abort, or when the channel is closed for the last node and empty |
| BizTermination.StepLowers | common/bizflow/graph.go:77-159 | no step gives any node more to do, and each step takes something off its own node |
| BizTermination.RunsEnd | common/bizflow/graph.go:77-106 | every run is at most six steps for each start the retries allow, plus one, long |
| BizStuck.LoadIsReady | common/bizflow/graph.go:114-121 | while nothing was dropped, tasks and events are as many as nodes ready and not done |
| BizStuck.EndExact | common/bizflow/graph.go:77-121 | a run that cannot go on and in which nothing was dropped has completed the last node and all its ancestors iff no more nodes are ready than pool and channel can take |
| BizStuck.EndsComplete | common/bizflow/graph.go:77-121 | if no more nodes than pool and channel can take do not wait for each other, every such run is complete, whatever the interleaving |
| BizStuck.EnoughWorkers | common/bizflow/engine.go:13-21 | as many workers as nodes are enough for that |
| BizStuck.NeverStuck | common/bizflow/graph.go:77-121 | before that some step can always be taken |
| BizStuck.StaysJammed | common/bizflow/graph.go:114-121 | once more nodes are ready than pool and channel can take, this stays so and the last node is never done |
| BizSchedule.RunAll | common/bizflow/graph.go:114-121 | any set of nodes closed under dependencies can be run alone, unless more nodes become ready than there are workers |
| BizStuckExact.StickExact | common/bizflow/graph.go:114-121 | for every pool: some run gets stuck iff some run finds more nodes ready than pool and channel can take |
| BizStuckExact.StickExactUnbuffered | common/bizflow/engine.go:42-44 | for graphs `Run` accepts (first node named), without room in the channel some run gets stuck iff more nodes than workers do not wait for each other |
| BizStuckExact.StuckIsWide | common/bizflow/graph.go:114-121 | with room in the channel only graphs wider than workers and room together get stuck |
| BizStuckExact.DiamondSticks | common/bizflow/bizflow_test.go:14-22 | the repository's own example graph gets stuck on one worker |
| BizDoubleClose.AbortsLate | common/bizflow/graph.go:99-112 | on two workers or more and a channel with room, on which the graph cannot get stuck: for every node that is no ancestor of the last one there is a run in which an abort after the last node's event closes the channel again |
| BizDoubleClose.ClosesTwiceExact | common/bizflow/graph.go:99-112 | for every graph and pool: some run closes the channel twice iff in some run the master takes the last node's execOK while another event waits in the channel |
| BizDoubleClose.CouldAbort | common/bizflow/graph.go:124-158 | whenever a node's event is on its way in some run, the same state but for that event being an abort is reached in some run |
| BizDoubleClose.DoubleCloseExact | common/bizflow/graph.go:99-112 | on two workers or more on which the graph cannot get stuck, some run closes the channel twice iff the channel has room and some other node is no ancestor of the last one |
| BizDoubleClose.NarrowDoubleClose | common/bizflow/graph.go:99-112 | the same when no more nodes than pool and channel can take do not wait for each other, which a caller can check |
| BizDoubleClose.DoubleCloseOnly | common/bizflow/graph.go:99-112 | on every pool a second close needs room in the channel and such a node |
| BizDoubleClose.ClosesOnce | common/bizflow/graph.go:108-112 | when all other nodes are ancestors of the last, the channel is never closed twice and nothing is left when it is closed |
| BizDoubleClose.UnbufferedClosesOnce | common/bizflow/engine.go:42-44 | a channel without room is never closed twice, whatever the graph |
| BizLateAbort.ReadyFits | common/bizflow/graph.go:114-121 | on a pool on which the graph cannot get stuck, no more nodes than pool and channel can take are ready while nothing was dropped and the channel is open |
| BizLateAbort.AbortsAfterLast | common/bizflow/graph.go:77-121 | on two workers or more and a channel with room, on which the graph cannot get stuck, and for a node that is no ancestor of the last one: a run exists in which the master holds the last node's event while an abort waits in the channel |
| BizSingleWorker.SingleWorkerClosesOnce | common/bizflow/graph.go:114-121 | on one worker, graphs whose last node is released alone and whose other nodes release nothing and are not retried never close the channel twice |
| BizSingleWorker.ForkClosesOnce | common/bizflow/graph.go:114-121 | so on one worker such a node is not enough for a second close |
| Bizflow.Graph.AddNode | common/bizflow/graph.go:20-48 | in place, the AddNode of the specification: each item's `nexts` become exactly the items that depend on it; panics as specified; nothing is submitted |
| Bizflow.Graph.GetNode | common/bizflow/graph.go:50-60 | the node if completed, a panic if present and not completed |
| Bizflow.Graph.ExecNext | common/bizflow/graph.go:114-121 | the loop over `nexts` in place is the ExecNext of the specification: the released nodes are to be handed to the pool |
| Bizflow.Graph.TryStop | common/bizflow/graph.go:108-112 | closes the channel for the last node only; closing twice panics |
| Bizflow.Graph.HandleEvent | common/bizflow/graph.go:86-104 | each kind of event handled as specified |
| Bizflow.Graph.Receive | common/bizflow/graph.go:86-86 | the master takes an event, as the Receive step |
| Bizflow.Graph.HandleHeld | common/bizflow/graph.go:86-104 | the body of the master loop is a HandleEvent step |
| Bizflow.Graph.SubmitTask | common/bizflow/graph.go:118-118 | a task is handed over when a worker is free, as the Submit step |
| Bizflow.Graph.EndRun | common/bizflow/graph.go:86-106 | the loop ends when the channel is closed and empty |
| Bizflow.Graph.BeginWork | common/bizflow/graph.go:130-140 | a worker runs the node iff the channel is open |
| Bizflow.Graph.SetEvent | common/bizflow/graph.go:140-158 | the event by the outcome of the node; an unclassified error leaves the old event |
| Bizflow.Graph.SendEvent | common/bizflow/graph.go:135-139 | the event is dropped when the channel is closed, waits in it when it has room, and otherwise goes to the waiting master |
| Bizflow.Graph.StartRun | common/bizflow/graph.go:77-85 | for every graph that was built: the error iff all independent nodes have the empty name, a direct call of the last node iff it is independent and named, otherwise an independent node's task and nothing else; when the first node alone is independent and named, the initial state of every run |
| Bizflow.BuildGraph | common/bizflow/graph.go:20-48 | adding a list of nodes one by one builds the graph or panics as specified, and the graph has not run |
| Bizflow.StartGraph | common/bizflow/graph.go:77-85 | a graph built by AddNode, of two nodes or more of which the first alone is independent and has a name, starts in the initial state of every run |

## Left out

- Timing wheel: `ScheduleFunc`, the exit paths of `Poll`, `Start` and `Stop` of the wheel, and the real clock. The refinement takes popping an entry, advancing the clocks and flushing as one step, and `AfterFunc` as one step; tick >= 1, wheelSize >= 2 and times >= 0 are assumed (with wheelSize 1 the recursion into overflow wheels does not end).
- TimingWheels.TimingWheel.Insert: the source offers a newly armed bucket inside `add`, at the level that holds it; here the bucket is handed down and offered by `Add` as the last action of the call.
- TimingWheels.Bucket.Remove: the bucket's list is a sequence of timers, so that `t.element` is found by position instead of through a list element; the concurrent form with list elements is `StopProtocol`.
- Concurrent `AfterFunc` calls racing to create an overflow wheel: the compare-and-swap is taken as one assignment.
- StopProtocol.StoppedNeverStarts: for one `AfterFunc` timer, its creator, the wheel's goroutine and any number of calls to `Stop`; other timers appear as users of the mutexes, and timers of `ScheduleFunc`, which set themselves again, are not covered.
- State server: the seven-day expiry of Redis keys, failing Redis or gateway calls and the error returns they cause, unmarshalling errors, messages without a head, gRPC and protobuf; a push message is taken to marshal to zero bytes iff all its fields have their default values. Each handler and timer function is one step.
- The endpoint text in a route record and `router.QueryRecord`; slot lists other than 0..n-1.
- StateServer.Store.DelCounters: keyed by connection; that the KEYS pattern does the same on key texts is `KeyCodec.LogoutPurges`.
- StateServer.CacheState.InitLoginSlot: the slots are processed one after the other instead of in parallel; `RecoveryOrderIrrelevant` shows that the order does not matter.
- UpProtocol.AcceptedArePrefix: for sessions that have sent at most 2^64 bodies on a connection, after which the SDK's counter starts again from zero; sending and reconnecting are atomic, and connection ids are not reused (`ConnId.IdsIncrease`).
- KeyCodec.PatternExact: character classes of Redis patterns are not part of the model; no pattern in use has one.
- ConnId.ConnIDGenerater.NextID: clock readings are an argument; a call whose readings run out while it spins has not returned.
- TcpFraming: read deadlines and connection errors other than "this call fails"; the 120-second timeout is one such failure.
- BizGraph.BuildExact: node names are assumed distinct and dependency lists free of duplicates; a repeated name would replace the earlier item. Runs are modelled of graphs whose first node alone is independent and has a name; how `Run` begins on the others is `Bizflow.Graph.StartRun`.
- BizStuck.EndsComplete: makes no claim when retries run out or an error is not classified, since the source then waits for ever.
- BizRun.NextInv: an event is passed by its node, without the capture of the loop variable by submitted closures, and looking whether the channel is closed takes no event from it. A worker's look and its send are one step: a send that the close cuts off panics in the worker, and here its event is lost. The pool serves one run.
- BizStuckExact.StuckIsWide: with room in the channel this is one half. Which nodes can become ready together then depends on the order in which events already sent are handled; the exact condition is the one on runs, `BizStuckExact.StickExact`.
- BizDoubleClose.DoubleCloseExact: the condition on the graph is exact for pools of two workers or more on which the graph cannot get stuck, and on one worker it is not (`BizSingleWorker.ForkClosesOnce`). On every pool the exact condition is the one on runs, `BizDoubleClose.ClosesTwiceExact`, and the half of the condition on the graph that holds is `BizDoubleClose.DoubleCloseOnly`.
- What the direct call does when `Graph.Run` runs a single node itself, and flow registration in `Engine`.
- The gateway's epoll loop, work pool and file descriptors; `ipconf`; `common/prpc`; user domain storage; logging and tracing: system calls, floating point or thin wrappers.
