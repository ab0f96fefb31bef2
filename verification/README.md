# SOEM driver: verified model

A Dafny model of the EtherCAT hardware driver in this repository, and proofs about it. It covers
four parts that carry state over whole executions and the arithmetic beside them.

**The two threads.** `SOEMMaster::cyclic_task` runs in a realtime thread, `SOEMDriver::read` and
`SOEMDriver::write` in a control thread. They share process-data buffers and, for every slave, two
mailbox buffers, guarded only by atomic booleans. `Mailbox.dfy` and `ProcessData.dfy` give each
thread a program counter with one step per atomic load, atomic store and copied byte; `Bus.dfy`
puts them together over any number of slaves. A schedule is any sequence of thread steps, plugin
decisions, bus answers and stop requests, so a statement about `Bus.Exec` for all schedules is a
statement about every interleaving. A run starts where `run`
creates the realtime thread: plugins may have enqueued requests while they were configured, and input
data may have arrived while the bus was brought up. `Progress.dfy` says exactly which blocked
transfers can and which must return, `MailProgress.dfy` when mailbox requests are served, `Ending.dfy`
when the realtime thread ends; `Order.dfy` says exactly which replies are fetched before their request
has been sent, and `Replies.dfy` ties what is logged to the bus calls. `Calls.dfy`, `Exchanges.dfy` and
`Transfers.dfy` say what one call of `read` or `write` does at every slave.

**Cyclic accounting.** `Cyclic.dfy` holds the class `SOEMMaster` with the loop's counters, deadline,
error list and status queue, and proves them to be functions of the whole cycle history.

**The TMCM1610 module.** `Tmcm1610.dfy` is its state machine as functions on values, with theorems
over every sequence of events; `Tmcm1610Module.dfy` is the module as a class, each method proved
against those functions; `Homing.dfy` tells the way into motion in the fields of the events;
`ModeSwitch.dfy` and `Units.dfy` hold the command-mode switch and the unit conversions, and
`Controlling.dfy` what a controller gets from the interfaces it claims.

**Claims, exports and mode switches.** `Claims.dfy` says what resolving a joint's claims means and
which rewritings leave it unchanged; `Routing.dfy` treats the reverse index and the routing of mode
switches; `Resolver.dfy` and `Driver.dfy` hold the classes `ECClaimsResolver` and `SOEMDriver` with
the loops that compute them, and end in one theorem from the names a controller uses to the modes
the slaves end in (`Driver.SwitchEndToEnd`).

## What turned out not to hold

- A blocked transfer does not always return. `Progress.InputCanReturnIff` and
  `Progress.OutputCanReturnIff` say when it still can, `Progress.InputMustReturnIff` and
  `Progress.OutputMustReturnIff` when it must whatever else happens; `Progress.StopCanStrandInput`
  and `Progress.StopCanStrandOutput` are runs in which a stop between the two tests of a transfer and
  its wait strands it. Without a stop every transfer returns (`Progress.TransfersReturn`).
- A completed fetch may precede the send of its own request, in three ways:
  `Order.FetchMayPrecedeSend`, `Order.FetchMayOvertakeRequest`, `Order.FetchMayFollowFailedSend`.
  `Order.FetchPrecedesSendIff` says exactly which fetches do. Both happen exactly once before the
  next request is taken in any case.
- The error a raw mailbox read causes is not always removed again, as the comment beside the code has
  it: the code takes the oldest error of the list (`Cyclic.RawReadHidesItsErrorIff`,
  `Cyclic.RawReadMayKeepItsError`).
- The published cycle count is the number of cycles only below 2^31 (`Cyclic.CycleCountIsExactIff`,
  `Cyclic.CycleCountWraps`).
- Full interface names do not always identify joint and interface. They fail to exactly where a
  longer joint name swallows the beginning of another joint's interface name
  (`Routing.KeysCollideIff`), and the index is right exactly if no two joints export such names for
  different interfaces (`Routing.IndexAgreesWithExportsIff`). Slash-free joint names, or slash-free
  interface names, rule it out; `Routing.SlashedNamesCollide` is a configuration that loses an entry.
- Requests reach the right joint through the transmission map exactly if interfaces shown under one
  name have one own name (`Driver.TranslationUndoesExportIff`, `Driver.SharedNameIsMisrouted`): with slash-free names, if joints shown
  under one name export disjoint interface names (`Driver.ShownApartIff`).
- Performing a mode switch without an accepted prepare can switch some slaves and not others
  (`Routing.PerformAloneCanSplit`); `Routing.PerformSwitchesAllOrNoneIff` says when it switches all or
  none.

## Model

| member | source | states |
|---|---|---|
| `Mailbox.RtKeepsInv` | soem_driver/src/soem_master.cpp:419-471 | every step of the realtime thread at a slave's mailboxes keeps the exchange invariant (ledgers, flags, message bytes, what is still owed), whatever the bus answers |
| `Mailbox.CtKeepsInv` | soem_driver/src/soem_driver.cpp:917-966 | every step of the control thread at a slave's mailboxes and queues keeps the same invariant, whatever the plugin enqueues or consumes |
| `Mailbox.ReplayedCounts` | soem_driver/src/soem_driver.cpp:954-966 | in a log of well-formed exchanges at most the last request still owes its send or its fetch, and all others have theirs |
| `Mailbox.ReplayedInOrder` | soem_driver/src/soem_master.cpp:423-435 | the n-th payload sent carries the n-th request's message, as far as it fits the buffers |
| `Mailbox.ReplayedSinceDequeue` | soem_driver/src/soem_driver.cpp:954-966 | since the last dequeue, what happened and what is owed add up to one send, and one fetch iff a reply was asked for |
| `Mailbox.ReplayedServes` | soem_driver/src/soem_driver.cpp:957-964 | since the last dequeue, every send carries that request's message and every fetch uses its raw mode |
| `Mailbox.OneExchangePerDequeue` | soem_driver/src/soem_driver.cpp:954-966 | between two consecutive dequeues lie exactly one successful send and exactly one completed fetch iff the first request asked for a reply |
| `Mailbox.AcceptedInOrder` | soem_driver_slave_interface/include/soem_driver_slave_interface/soem_driver_slave.hpp:65-68 | accepted messages are those sent, at most one in flight, then those queued, in first-in first-out order |
| `Mailbox.RepliesInOrder` | soem_driver/src/soem_master.cpp:437-470 | fetched replies are, in order, those consumed, those queued and the unread one; none is lost or duplicated, and there is one per reply asked for and not outstanding |
| `Mailbox.UnsentIff` | soem_driver/src/soem_driver.cpp:957-964 | the last request taken is unsent in the log exactly if the replay still owes its send |
| `Mailbox.FetchKeepsSendDue` | soem_driver/src/soem_master.cpp:437-454 | from the test of `receive_mbx` to the report of the reply neither thread changes whether the request still has to be sent |
| `Mailbox.PassingSendDue` | soem_driver/src/soem_master.cpp:438 | at that test the request still has to be sent iff `send_mbx_request` is set or the control thread is about to set it |
| `ProcessData.OutRtKeepsInv` | soem_driver/src/soem_master.cpp:352-361 | the realtime half of the output handoff keeps its invariant while it copies byte by byte |
| `ProcessData.OutRtKeepsFrames` | soem_driver/src/soem_master.cpp:352-361 | each send attempt sends the last captured image whole, and the sent images never skip one |
| `ProcessData.OutCtKeepsInv` | soem_driver/src/soem_master.cpp:547-554 | `transfer_RxPDO` keeps the invariant of the output handoff |
| `ProcessData.FillKeepsInv` | soem_driver/src/soem_driver.cpp:946-950 | a plugin writing into the working set keeps it, because no transfer is pending then |
| `ProcessData.NoFrameSkipped` | soem_driver/src/soem_master.cpp:353-361 | every image number up to the last one sent has been sent |
| `ProcessData.EveryImageIsSent` | soem_driver/src/soem_master.cpp:344-361 | every image of a served transfer reaches a send attempt, whole |
| `ProcessData.InRtKeepsInv` | soem_driver/src/soem_master.cpp:386-417 | the realtime half of the input handoff keeps its invariant while it copies byte by byte |
| `ProcessData.InRtKeepsFresh` | soem_driver/src/soem_master.cpp:386-417 | each delivered image is what the most recent receive call left, failed or not, and a later one each time |
| `ProcessData.InCtKeepsInv` | soem_driver/src/soem_master.cpp:556-563 | `transfer_TxPDO` keeps the invariant of the input handoff |
| `Bus.StepKeepsInv` | soem_driver/src/soem_master.cpp:344-471 | any step of either thread, or a stop, keeps the invariant of the whole system |
| `Bus.RunKeepsInv` | soem_driver/src/soem_driver.cpp:911-972 | so does every schedule |
| `Bus.BuffersAreOwned` | soem_driver/src/soem_master.cpp:411-471 | in every interleaving the two threads are never both inside an access to the same `RxPDO_working`, `TxPDO_working`, `SMbx` or `RMbx` |
| `Bus.MailboxHistories` | soem_driver/src/soem_driver.cpp:920-966 | in every interleaving, for every slave, messages are sent in order, replies are neither lost, overwritten nor duplicated, and there is one for every reply asked for and not outstanding |
| `Bus.MailboxExchanges` | soem_driver/src/soem_driver.cpp:948-966 | in every interleaving, for every slave, consecutive dequeues enclose exactly one send and the fetch that was asked for |
| `Bus.FramesFollowWrites` | soem_driver/src/soem_master.cpp:344-361 | in every interleaving the frames on the bus are a stuttering of the images handed over: whole, in order, none skipped |
| `Bus.NoImageIsDropped` | soem_driver/src/soem_master.cpp:344-361 | with or without a stop, each image taken over is sent at least once before the loop test is reached again |
| `Bus.InputsAreWholeAndFresh` | soem_driver/src/soem_master.cpp:386-417 | outside a pending transfer the plugins' input is the whole image some receive call left (a failed call counts), and deliveries only move forward |
| `Progress.InputIsServed` | soem_driver/src/soem_master.cpp:556-563 | a waiting `transfer_TxPDO` whose service lies ahead is served within `InputRank` realtime steps, in every schedule without a further stop |
| `Progress.OutputIsServed` | soem_driver/src/soem_master.cpp:547-554 | the same for `transfer_RxPDO` and `OutputRank` |
| `Progress.InputIsStranded` | soem_driver/src/soem_master.cpp:412-417 | once the realtime thread has passed the input service of its last cycle, no schedule serves the wait |
| `Progress.OutputIsStranded` | soem_driver/src/soem_master.cpp:353-358 | the same for the output service |
| `Progress.InputCanReturnIff` | soem_driver/src/soem_master.cpp:556-563 | a waiting `transfer_TxPDO` is served in some schedule iff the realtime thread has not passed the input service of its last cycle |
| `Progress.InputIsServedRegardless` | soem_driver/src/soem_master.cpp:411-417 | in a cycle and before its input service, the realtime thread serves the wait within `InputRank` of its steps, whatever else happens, stops included |
| `Progress.InputMustReturnIff` | soem_driver/src/soem_master.cpp:556-571 | a waiting `transfer_TxPDO` is served in every schedule with enough realtime steps, stops included, iff that thread is in a cycle and not past its input service; otherwise a stop strands it for ever |
| `Progress.OutputCanReturnIff` | soem_driver/src/soem_master.cpp:547-554 | a waiting `transfer_RxPDO` is served in some schedule iff the realtime thread has not passed the output service of its last cycle |
| `Progress.OutputIsServedRegardless` | soem_driver/src/soem_master.cpp:352-358 | in a cycle and before its output service, the realtime thread serves the wait within `OutputRank` of its steps, stops included |
| `Progress.OutputMustReturnIff` | soem_driver/src/soem_master.cpp:547-571 | the same for `transfer_RxPDO` and the output service, both directions |
| `Progress.TransfersReturn` | soem_driver/src/soem_master.cpp:546-563 | without a stop every waiting transfer of every run is served within a bounded number of realtime steps |
| `Progress.StopCanStrandInput` | soem_driver/src/soem_master.cpp:556-571 | a run in which a stop between the tests of `transfer_TxPDO` and its wait strands it |
| `Progress.StopCanStrandOutput` | soem_driver/src/soem_master.cpp:547-571 | a run in which a stop between the tests of `transfer_RxPDO` and its wait strands it |
| `MailProgress.DutyIsDone` | soem_driver/src/soem_master.cpp:419-455 | a requested send, or a wanted fetch with the receive buffer free, is done in every schedule without a stop once the realtime thread has had `DutyRank` steps, if the bus fails no attempt at that slave |
| `MailProgress.MailboxesProgress` | soem_driver/src/soem_master.cpp:419-455 | the same for every run from the start: the send or the fetch is in the log within a bounded number of realtime steps |
| `Order.FetchPrecedesSendIff` | soem_driver/src/soem_master.cpp:423-454 | for every run and every fetch in a slave's log: it precedes the send of its own request iff, when the realtime thread found it wanted, `send_mbx_request` was set or the control thread was about to set it |
| `Order.FetchesFollowSends` | soem_driver/src/soem_master.cpp:423-454 | if every attempted send succeeds and the realtime thread never stands between its two tests while the control thread is about to request the send, every fetch follows its send |
| `Order.FetchMayPrecedeSend` | soem_driver/src/soem_driver.cpp:962-964 | a run that fetches between the stores of `receive_mbx` and `send_mbx_request` |
| `Order.FetchMayOvertakeRequest` | soem_driver/src/soem_master.cpp:423-438 | a run that fetches for a request published between the two tests, with no failing send and no test of `receive_mbx` between the two stores |
| `Order.FetchMayFollowFailedSend` | soem_driver/src/soem_master.cpp:429-438 | a run that fetches right after the send of the same request has failed |
| `Replies.FetchesAreReceived` | soem_driver/src/soem_master.cpp:437-454 | for every run and every fetch in a slave's log: a receive call of the same visit, in the request's mode, was answered by the bus, and the reply is as long as `RMbx` and holds the bytes the bus gave, zeros behind them |
| `Replies.FailedReceiveWaits` | soem_driver/src/soem_master.cpp:442-445 | a receive call the bus does not answer logs nothing, leaves the fetch wanted and ends the visit |
| `Replies.SendsAreConfirmed` | soem_driver/src/soem_master.cpp:423-435 | for every run and every send in a slave's log: the bus has confirmed it, and what was sent is the whole of `SMbx` in a cleared buffer |
| `Replies.FailedSendWaits` | soem_driver/src/soem_master.cpp:429-435 | a failing send logs nothing and leaves the send requested |
| `Replies.InputsAreReceived` | soem_driver/src/soem_master.cpp:386 | every received input image is what one receive call gave |
| `Calls.EverySlaveIsVisited` | soem_driver/src/soem_driver.cpp:916-967 | a call of `read` that has returned has come to the `read` of every slave's plugin once, in order; a call of `write` to their `write` |
| `Calls.EveryCallReturns` | soem_driver/src/soem_driver.cpp:911-972 | every call returns after visiting every slave, in every schedule with enough steps of the control thread besides those spent waiting for a transfer's service or in the plugins |
| `Calls.ReplyIsTakenOver` | soem_driver/src/soem_driver.cpp:920-931 | whenever `read` comes to a plugin it has tested that slave's unread flag and taken the reply over if there was one and room for it, and only then freed the mailbox |
| `Exchanges.WriteStartsExchangeIff` | soem_driver/src/soem_driver.cpp:954-965 | whenever `write` leaves a slave it has taken the oldest message, copied it and requested its send iff it found no send requested, no reply wanted and a message queued |
| `Transfers.CallTransfersIff` | soem_driver/src/soem_master.cpp:546-563 | a returned call has transferred process data, and waited until that was served, iff it found the master running and then not stopped: `write` hands over its working set, `read` gets one delivery |
| `Transfers.PluginEnqueues` | soem_driver_slave_interface/include/soem_driver_slave_interface/soem_driver_slave.hpp:65-68 | a plugin's message is queued at the end if there is room and else dropped |
| `Transfers.PluginConsumes` | soem_driver_slave_interface/include/soem_driver_slave_interface/soem_driver_slave.hpp:76-83 | a plugin consumes all waiting replies, in order |
| `Transfers.PluginWrites` | soem_driver/src/soem_driver.cpp:946-950 | in `write`, and only there, a plugin can set any byte of the output working set, and changes no other |
| `Ending.RunningIff` | soem_driver/src/soem_master.cpp:333-529 | in every run the master says it is running exactly from the start of the realtime thread to its end |
| `Ending.StopEndsTask` | soem_driver/src/soem_master.cpp:344-529 | in every run a stop ends the realtime thread within a bounded number of its own steps |
| `Cyclic.ErrorsAreConserved` | soem_driver/src/soem_master.cpp:456-483 | every error reported in a cycle is found by the check or dropped after a raw mailbox read, with multiplicity |
| `Cyclic.OnlyMailboxErrorsAreDropped` | soem_driver/src/soem_master.cpp:463-467 | only mailbox and emergency errors, of slaves whose mailbox was read raw, are dropped |
| `Cyclic.RawReadHidesItsErrorIff` | soem_driver/src/soem_master.cpp:456-467 | the error a raw read reports itself leaves the list no longer iff the list was empty or began with such an error; otherwise it stays and is counted |
| `Cyclic.RawReadMayKeepItsError` | soem_driver/src/soem_master.cpp:456-467 | an error list in which the error of the raw read stays and an older one is moved behind it |
| `Cyclic.FailingSuffixIsUnique` | soem_driver/src/soem_master.cpp:361-409 | the maximal failing suffix of a history is unique, so the consecutive counters are determined by it |
| `Cyclic.ConsecutiveCountersMeanSuffixes` | soem_driver/src/soem_master.cpp:361-409 | after every history each consecutive counter is the count over the maximal failing suffix since the task started |
| `Cyclic.TotalsCountEverything` | soem_driver/src/soem_master.cpp:369-520 | totals are send failures, receive failures and drained bus errors; the miss counter counts exactly the cycles past their deadline |
| `Cyclic.StatusesAt` | soem_driver/src/soem_master.cpp:509-523 | the k-th status pushed and the k-th deadline are those of the history up to cycle k |
| `Cyclic.StatusesCountCycles` | soem_driver/src/soem_master.cpp:346-347 | below 2^31 the k-th status pushed carries the number of its cycle |
| `Cyclic.PushedStateMatchesDiagnostics` | soem_driver/include/soem_driver/soem_master_helpers_ros.hpp:17-25 | a status pushed in the loop says ERROR iff the diagnostics built from it report an error, iff that very cycle failed; they warn iff it says RUNNING and a deadline was missed |
| `Cyclic.QueueKeepsOldest` | soem_driver/include/soem_driver/soem_master.hpp:141 | the capacity-1 status queue keeps the oldest status since the reader last emptied it |
| `Cyclic.CycleCountIsExactIff` | soem_driver/src/soem_master.cpp:346-347 | the published count equals the number of cycles iff the 32-bit counter has not wrapped (or its sign extension happens to coincide) |
| `Cyclic.CycleCountWraps` | soem_driver/src/soem_master.cpp:346-347 | the first cycle whose published count is wrong |
| `Cyclic.DeadlineIsMaxPlus` | soem_driver/src/soem_master.cpp:512-520 | the k-th deadline is the maximum over j of the j-th clock reading plus (k - j) cycle times |
| `Cyclic.DeadlineDrift` | soem_driver/src/soem_master.cpp:512-520 | deadlines are at least the cycle time apart, never before the reading just taken, and advance by exactly the cycle time iff nothing was missed |
| `Cyclic.SOEMMaster.constructor` | soem_driver/src/soem_master.cpp:70-78 | all counters start at 0, uninitialised, nothing queued |
| `Cyclic.SOEMMaster.PushStatus` | soem_driver/include/soem_driver/soem_master.hpp:141 | a push succeeds iff the queue is empty and otherwise changes nothing |
| `Cyclic.SOEMMaster.DrainErrors` | soem_driver/src/soem_master.cpp:476-483 | draining empties the error list and counts its entries |
| `Cyclic.SOEMMaster.ServeMailboxes` | soem_driver/src/soem_master.cpp:456-468 | popping and putting back errors after raw mailbox reads leaves the list the history says, from whatever it held before |
| `Cyclic.SOEMMaster.Account` | soem_driver/src/soem_master.cpp:360-507 | one cycle's accounting does to the status what the history function says and reports whether anything failed |
| `Cyclic.SOEMMaster.RunCycle` | soem_driver/src/soem_master.cpp:346-523 | one turn of the loop: status, counter with wrap-around, next deadline and queue |
| `Cyclic.SOEMMaster.RunCycles` | soem_driver/src/soem_master.cpp:344-527 | the loop pushes exactly the statuses, and sleeps until exactly the deadlines, of its history |
| `Cyclic.SOEMMaster.CyclicTask` | soem_driver/src/soem_master.cpp:329-532 | the whole task does so from whatever the counters, the queue and the error list held, errors of the bring-up counting in the first cycle, and ends idle |
| `Tmcm1610.PlansAreStages` | soem_slave_modules/soem_modules_trinamic/src/tmcm1610.cpp:347-528 | the two plans, task by task, are the chain of awaited conditions, with or without homing |
| `Tmcm1610.StepStage` | soem_slave_modules/soem_modules_trinamic/src/tmcm1610.cpp:554-718 | one event advances the machine by exactly one stage if it shows the awaited condition, switches it off if it is a wrong reply, and otherwise changes nothing |
| `Tmcm1610.RunStage` | soem_slave_modules/soem_modules_trinamic/src/tmcm1610.cpp:345-545 | after any events the machine is off iff a configuration question was answered wrongly, and otherwise exactly where the shown conditions put it |
| `Tmcm1610.ShownIsWitnessed` | soem_slave_modules/soem_modules_trinamic/src/tmcm1610.cpp:512-528 | the conditions counted as shown are witnessed by events in that order |
| `Tmcm1610.WitnessedIsShown` | soem_slave_modules/soem_modules_trinamic/src/tmcm1610.cpp:512-528 | any events that witness conditions in order are enough for the machine to have advanced that far |
| `Tmcm1610.MotionIff` | soem_slave_modules/soem_modules_trinamic/src/tmcm1610.cpp:506-735 | motion is enabled iff no configuration question was answered wrongly and the whole ordered chain of conditions has been witnessed |
| `Homing.ShowsIsEvidence` | soem_slave_modules/soem_modules_trinamic/src/tmcm1610.cpp:396-713 | each awaited condition, in the fields of the event alone: reply fields, flag bits, and signed bounds on velocity, position and current |
| `Homing.DerailedIff` | soem_slave_modules/soem_modules_trinamic/src/tmcm1610.cpp:392-470 | a configuration question was answered wrongly iff the first or the second reply of the run is not the right one |
| `Homing.MotionIffEvidence` | soem_slave_modules/soem_modules_trinamic/src/tmcm1610.cpp:506-735 | motion is enabled iff both questions were answered right and events in order carry the evidence for all eleven conditions, or the four without homing |
| `Tmcm1610.KnowledgeIsFromReplies` | soem_slave_modules/soem_modules_trinamic/src/tmcm1610.cpp:392-460 | unless a question was answered wrongly, firmware version, module type and encoder resolution are those of the very replies that witnessed the chain |
| `Homing.RepliesAreBigEndian` | soem_slave_modules/soem_modules_trinamic/src/tmcm1610.cpp:401-450 | the encoder resolution and the module type are read most significant byte first |
| `Tmcm1610.MovesOnlyForHoming` | soem_slave_modules/soem_modules_trinamic/src/tmcm1610.cpp:563-729 | in every run before motion the drive is told to move only while waiting for initialization, the homing current or the back-off position, with the configured values; every other write is STOP 0 |
| `Tmcm1610.MailboxBudget` | soem_slave_modules/soem_modules_trinamic/src/tmcm1610.cpp:376-503 | over any run the machine enqueues a prefix of the same five messages |
| `Tmcm1610.ZeroOnlyWhenHalted` | soem_slave_modules/soem_modules_trinamic/src/tmcm1610.cpp:656-708 | the position is set to zero only in reaction to a read event with the velocity below the halt tolerance in either direction, while halting |
| `Tmcm1610.OffStopIsFinal` | soem_slave_modules/soem_modules_trinamic/src/tmcm1610.cpp:897-920 | once switched off the machine stays off and every later write is STOP with setpoint 0 |
| `Tmcm1610.CommandsDoNotInterfere` | soem_slave_modules/soem_modules_trinamic/src/tmcm1610.cpp:738-767 | two runs that differ only in commands and mode switches write the same data before motion, enable motion at the same point and enqueue the same messages |
| `Tmcm1610.MotionWritesFollowMode` | soem_slave_modules/soem_modules_trinamic/src/tmcm1610.cpp:745-889 | in motion each write emits exactly the current command mode with that mode's converted command, 0 if it is not finite |
| `Tmcm1610Modules.TrinamicTMCM1610.constructor` | soem_slave_modules/soem_modules_trinamic/src/tmcm1610.cpp:164-218 | a new module is unconfigured, stopped, with empty queues |
| `Tmcm1610Modules.TrinamicTMCM1610.MbxEnqueueSend` | soem_driver_slave_interface/include/soem_driver_slave_interface/soem_driver_slave.hpp:65-68 | a message is refused iff the queue is full, and otherwise appended |
| `Tmcm1610Modules.TrinamicTMCM1610.AlwaysRoom` | soem_driver_slave_interface/include/soem_driver_slave_interface/soem_driver_slave.hpp:35 | after configuration no ignored enqueue result is ever false |
| `Tmcm1610Modules.TrinamicTMCM1610.Configure` | soem_slave_modules/soem_modules_trinamic/src/tmcm1610.cpp:958-1038 | succeeds iff the device matches and a torque constant is given; then the parameters are stored, the machine is created and its first message queued |
| `Tmcm1610Modules.TrinamicTMCM1610.StoreParameters` | soem_slave_modules/soem_modules_trinamic/src/tmcm1610.cpp:994-1021 | each given parameter is stored, each absent one keeps its value |
| `Tmcm1610Modules.TrinamicTMCM1610.LeafRead` | soem_slave_modules/soem_modules_trinamic/src/tmcm1610.cpp:490-718 | the active state's reaction to process data is that of the state machine |
| `Tmcm1610Modules.TrinamicTMCM1610.LeafMessage` | soem_slave_modules/soem_modules_trinamic/src/tmcm1610.cpp:392-470 | the active state's reaction to a reply is that of the state machine |
| `Tmcm1610Modules.TrinamicTMCM1610.LeafUpdate` | soem_slave_modules/soem_modules_trinamic/src/tmcm1610.cpp:745-761 | an update in the motion region follows the command mode and otherwise does nothing |
| `Tmcm1610Modules.TrinamicTMCM1610.LeafWrite` | soem_slave_modules/soem_modules_trinamic/src/tmcm1610.cpp:563-914 | the process data written are those of the active state |
| `Tmcm1610Modules.TrinamicTMCM1610.ConsumeIncoming` | soem_driver_slave_interface/include/soem_driver_slave_interface/soem_driver_slave.hpp:76-83 | the machine reacts to every waiting reply, in order, and the queue is then empty |
| `Tmcm1610Modules.TrinamicTMCM1610.StatesTell` | soem_slave_modules/soem_modules_trinamic/src/tmcm1610.cpp:1196-1210 | the states shown to the controllers, written back as commands, give the process data again, quantity by quantity |
| `Tmcm1610Modules.TrinamicTMCM1610.Read` | soem_slave_modules/soem_modules_trinamic/src/tmcm1610.cpp:1185-1233 | the module's history grows by the read event, the waiting replies and an update, and the states are the converted process data |
| `Tmcm1610Modules.TrinamicTMCM1610.Write` | soem_slave_modules/soem_modules_trinamic/src/tmcm1610.cpp:1236-1243 | the history grows by an update and a write event; in motion mode and setpoint written are those of the command mode and its command |
| `Tmcm1610Modules.TrinamicTMCM1610.TakeRequest` | soem_driver/src/soem_driver.cpp:957-960 | the driver takes the oldest queued message, if there is one |
| `Tmcm1610Modules.TrinamicTMCM1610.DeliverReply` | soem_driver/src/soem_driver.cpp:922-927 | a reply is refused iff the queue is full, and otherwise appended |
| `Tmcm1610Modules.TrinamicTMCM1610.SetCommandInterfaces` | soem_slave_modules/soem_modules_trinamic/src/tmcm1610.cpp:947-956 | the controllers' commands arrive through the exported interfaces and are part of the history |
| `Tmcm1610Modules.TrinamicTMCM1610.PrepareCommandModeSwitch` | soem_slave_modules/soem_modules_trinamic/src/tmcm1610.cpp:1073-1106 | accepts exactly the switches that the closed form accepts and changes nothing |
| `Tmcm1610Modules.TrinamicTMCM1610.PerformCommandModeSwitch` | soem_slave_modules/soem_modules_trinamic/src/tmcm1610.cpp:1108-1144 | accepts the same switches, ends in their last mode, and leaves the mode unchanged on error |
| `ModeSwitch.DecideClosedForm` | soem_slave_modules/soem_modules_trinamic/src/tmcm1610.cpp:1087-1102 | the loop succeeds iff base and start modes stop and then keep to one mode, and ends in the last of them |
| `ModeSwitch.SwitchClosedForm` | soem_slave_modules/soem_modules_trinamic/src/tmcm1610.cpp:1114-1137 | from STOP the start modes must be STOP* m*, from a mode that is not stopped all of that mode; both directions |
| `ModeSwitch.SlaveClosedForm` | soem_driver_slave_interface/include/soem_driver_slave_interface/soem_driver_slave.hpp:101-113 | the same for any slave: one that keeps the interface's defaults accepts every switch and stays as it is |
| `ModeSwitch.ClaimsAreModes` | soem_slave_modules/soem_modules_trinamic/src/tmcm1610.cpp:168-191 | each claim stands for one mode |
| `ModeSwitch.OtherClaimsStop` | soem_slave_modules/soem_modules_trinamic/src/tmcm1610.cpp:181-191 | every other claim stands for none |
| `Controlling.InterfaceMode` | soem_slave_modules/soem_modules_trinamic/src/tmcm1610.cpp:947-956 | the claim of an exported interface stands for the mode of the value it carries |
| `Controlling.StartedInterfaceIsWritten` | soem_slave_modules/soem_modules_trinamic/src/tmcm1610.cpp:745-889 | a stopped drive in motion asked to start one of its interfaces accepts, and the next write carries that interface's value, in its mode and unit, and no other |
| `Controlling.StoppedInterfaceStops` | soem_slave_modules/soem_modules_trinamic/src/tmcm1610.cpp:1082-1085 | a drive asked to stop the interface it is driven through accepts, and the next write is STOP 0 |
| `Controlling.InterfacesExclude` | soem_slave_modules/soem_modules_trinamic/src/tmcm1610.cpp:1087-1102 | a drive driven through one interface refuses another until the first is stopped, and accepts it together with that stop |
| `Units.PositionRoundTrip` | soem_slave_modules/soem_modules_trinamic/src/tmcm1610.cpp:875-880 | a position command read back keeps its sign, never overshoots and is off by less than one tick |
| `Units.PositionWriteBack` | soem_slave_modules/soem_modules_trinamic/src/tmcm1610.cpp:1196-1199 | writing back a position read gives the original ticks |
| `Units.PositionSetpointIsMonotone` | soem_slave_modules/soem_modules_trinamic/src/tmcm1610.cpp:880 | larger position commands never give smaller setpoints |
| `Units.VelocityRoundTrip` | soem_slave_modules/soem_modules_trinamic/src/tmcm1610.cpp:841-846 | a velocity command read back keeps its sign, never overshoots and is off by less than one revolution per minute |
| `Units.VelocityWriteBack` | soem_slave_modules/soem_modules_trinamic/src/tmcm1610.cpp:1201-1204 | writing back a velocity read gives the original value |
| `Units.VelocitySetpointIsMonotone` | soem_slave_modules/soem_modules_trinamic/src/tmcm1610.cpp:846 | larger velocity commands never give smaller setpoints |
| `Units.EffortRoundTrip` | soem_slave_modules/soem_modules_trinamic/src/tmcm1610.cpp:806-812 | an effort command in range read back keeps its sign, never overshoots and is off by less than one milliampere's torque |
| `Units.EffortWriteBack` | soem_slave_modules/soem_modules_trinamic/src/tmcm1610.cpp:1206-1210 | writing back an effort read gives the original current |
| `Units.OneTurn` | soem_slave_modules/soem_modules_trinamic/src/tmcm1610.cpp:841-880 | one turn is the encoder resolution, and one turn a minute one count |
| `Units.OneAmpere` | soem_slave_modules/soem_modules_trinamic/src/tmcm1610.cpp:806-812 | a thousand counts give the torque constant |
| `Units.EffortSetpointIsMonotone` | soem_slave_modules/soem_modules_trinamic/src/tmcm1610.cpp:812 | larger effort commands never give smaller setpoints for a positive torque constant, never larger ones for a negative one |
| `Units.PositionReadBackIsMonotone` | soem_slave_modules/soem_modules_trinamic/src/tmcm1610.cpp:880 | what is read back of larger position commands is never smaller |
| `Units.VelocityReadBackIsMonotone` | soem_slave_modules/soem_modules_trinamic/src/tmcm1610.cpp:846 | what is read back of larger velocity commands is never smaller |
| `Units.EffortReadBackIsMonotone` | soem_slave_modules/soem_modules_trinamic/src/tmcm1610.cpp:812 | what is read back of larger effort commands is never smaller, for any torque constant but 0 |
| `Claims.TokenizeReads` | soem_driver/src/claims_resolver.cpp:35-61 | the ways of writing a claim are read back as they were meant |
| `Claims.FirstFit` | soem_driver/src/claims_resolver.cpp:218-225 | a single-interface claim selects the first interface it fits, or none |
| `Claims.ResolveMeansFirstMatch` | soem_driver/src/claims_resolver.cpp:63-140 | a joint's interfaces have distinct names, cover exactly the names its claims cover, and each aliases the first match in claim order, then slave order |
| `Claims.CandidatesInFields` | soem_driver/src/claims_resolver.cpp:76-106 | in the fields of claims and table alone: a candidate is an interface of that kind, of a known slave, under the claim's prefix and of its name if it gives one |
| `Claims.ResolveFromTable` | soem_driver/src/claims_resolver.cpp:198-240 | every alias is an interface of a known slave, the first there of its prefix and name |
| `Claims.WholeIsBothHalves` | soem_driver/src/claims_resolver.cpp:195-196 | replacing a whole claim by its state and command claims, anywhere in a joint's list, changes nothing |
| `Claims.WholeIdIsBothHalves` | soem_driver/src/claims_resolver.cpp:190-196 | the same on claim identifiers as they are written |
| `Claims.WholeIsItsSingles` | soem_driver/src/claims_resolver.cpp:209-226 | replacing a whole claim by its single-interface claims in slave order changes nothing |
| `Claims.AppendCoveredIff` | soem_driver/src/claims_resolver.cpp:233-250 | appending a claim changes nothing iff the joint already has every name it covers |
| `Routing.KeysCollideIff` | soem_driver/src/claims_resolver.cpp:243 | two full names are equal iff prefix and name are, or the longer prefix swallows the beginning of the other name |
| `Routing.OverlapNeedsSlashes` | soem_driver/src/claims_resolver.cpp:243 | such an overlap takes a slash in a prefix and a slash in a name |
| `Routing.SlashedNamesCollide` | soem_driver/src/claims_resolver.cpp:290-302 | claims and a slave for which an exported interface loses its index entry to another joint's |
| `Routing.IndexIsExported` | soem_driver/src/claims_resolver.cpp:290-302 | the reverse index holds nothing but exported interfaces |
| `Routing.IndexAgreesWithExportsIff` | soem_driver/src/claims_resolver.cpp:290-302 | the index names every exported command interface as the slave and interface it aliases iff no two joints export overlapping names for different interfaces |
| `Routing.SlashFreeNamesDoNotClash` | soem_driver/src/claims_resolver.cpp:243 | slash-free joint names are enough for that, and so are slash-free interface names |
| `Routing.IndexIgnoresOrderIff` | soem_driver/src/claims_resolver.cpp:294-300 | the index is the same for every order of visiting the joints, each once, iff no two joints clash in that way |
| `Routing.FullNamesNameCellsIff` | soem_driver/src/claims_resolver.cpp:243 | a slave's full names name the value of each of its interfaces iff interfaces with overlapping names share their value |
| `Routing.EntryNamesAliasedCell` | soem_driver/src/claims_resolver.cpp:236-243 | an index entry names the very value its exported alias writes |
| `Routing.DefaultsDoNotMatter` | soem_driver/src/claims_resolver.cpp:312-320 | the default entry left for an unknown request changes no later lookup |
| `Routing.RoutingIgnoresDefaults` | soem_driver/src/claims_resolver.cpp:312-320 | nor any later routing |
| `Routing.RoutingConserves` | soem_driver/src/claims_resolver.cpp:309-328 | routed lists never hold more than the requests, and exactly as many iff every request is mapped to one of the slaves |
| `Routing.TwoPhaseSwitch` | soem_driver/src/claims_resolver.cpp:305-399 | the perform after a prepare with the same arguments is accepted iff the prepare was, and leaves each slave that can switch in the last of its base and routed start modes, every other as it was |
| `Routing.PerformAloneCanSplit` | soem_driver/src/claims_resolver.cpp:353-399 | without it one slave may switch and another not |
| `Routing.PerformSwitchesAllOrNoneIff` | soem_driver/src/claims_resolver.cpp:353-399 | a perform, prepared or not, switches all slaves or none iff every slave accepts its routed requests, or none of those that accept is changed by them |
| `Resolver.ECClaimsResolver.constructor` | soem_driver/src/claims_resolver.cpp:17-33 | a new resolver has the given slaves, interfaces and claims and an empty index |
| `Resolver.ECClaimsResolver.SelectInterfaces` | soem_driver/src/claims_resolver.cpp:209-226 | the range searched for a claim is the selection it means |
| `Resolver.ECClaimsResolver.MapInterfaces` | soem_driver/src/claims_resolver.cpp:229-252 | the innermost loop extends a joint's interfaces, its set of names and its index consistently |
| `Resolver.ECClaimsResolver.ResolveInterfacesByJoint` | soem_driver/src/claims_resolver.cpp:178-265 | the nested loops compute the resolution of the joint's claims and the index of the result |
| `Resolver.ECClaimsResolver.ExportStateInterfacesByJoint` | soem_driver/src/claims_resolver.cpp:164-176 | every joint exports the resolution of its state claims |
| `Resolver.ExportsAreFirstMatches` | soem_driver/src/claims_resolver.cpp:164-176 | for each kind every joint exports the first match of every name its claims of that kind cover |
| `Resolver.ECClaimsResolver.ExportCommandInterfacesByJoint` | soem_driver/src/claims_resolver.cpp:290-302 | every joint exports the resolution of its command claims, and the index is the one of these exports |
| `Resolver.ECClaimsResolver.ClaimsBySlave` | soem_driver/src/claims_resolver.cpp:312-320 | each slave gets precisely the requests mapped to it, in request order |
| `Resolver.AllCalled` | soem_driver/src/claims_resolver.cpp:322-328 | once every slave is visited each was called exactly once with its own requests, and all answer OK iff every slave can switch |
| `Resolver.ECClaimsResolver.PrepareCommandModeSwitch` | soem_driver/src/claims_resolver.cpp:305-351 | calls every slave exactly once with its requests, changes no slave's mode, and is OK iff every slave answers OK |
| `Resolver.ECClaimsResolver.PerformCommandModeSwitch` | soem_driver/src/claims_resolver.cpp:353-399 | the same, and every slave that can switch does while the others keep their mode |
| `Driver.HandlesAreExports` | soem_driver/src/soem_driver.cpp:798-895 | handles and exported interfaces correspond one to one, each under its shown name, pointing at the slave's own value unless there is a transmission |
| `Driver.SlotsAreUsedOnce` | soem_driver/src/soem_driver.cpp:786-840 | every transmission value is used by exactly one exported interface and none points beyond the values allocated |
| `Driver.TranslationUndoesExportIff` | soem_driver/src/soem_driver.cpp:822 | every request by a shown name is translated back to its own joint's name iff interfaces shown under one name have one own name |
| `Driver.ShownApartIff` | soem_driver/src/soem_driver.cpp:822 | unless slashes make names overlap, that is: any two different joints shown under the same name export disjoint interface names |
| `Driver.SharedNameIsMisrouted` | soem_driver/src/soem_driver.cpp:822 | claims, slaves and a transmission for which a request for one joint's interface is translated to another joint and reaches the other slave |
| `Driver.RequestsReachIff` | soem_driver/src/soem_driver.cpp:974-988 | without clashes in the index, all requests reach through both maps the slave and interface they stand for iff interfaces shown under one name are the same interface |
| `Driver.ShownApartIsAlike` | soem_driver/src/soem_driver.cpp:822 | names that translate back are enough for that |
| `Driver.RequestReachesItsAlias` | soem_driver/src/soem_driver.cpp:974-988 | through both maps a request reaches the slave and the interface whose value the export stands for |
| `Driver.SwitchReachesTheAliases` | soem_driver/src/soem_driver.cpp:974-988 | a switch of exported interfaces asks each slave for precisely its own, in the order asked |
| `Driver.SwitchesKeepWiring` | soem_driver/src/claims_resolver.cpp:312-320 | no sequence of switches, for known or unknown names, disturbs what later switches reach |
| `Driver.SwitchEndToEnd` | soem_driver/src/soem_driver.cpp:974-1004 | from shown names to slaves' modes: when the prepare is accepted, both directions; that the following perform is accepted iff the prepare was; and where it leaves every slave |
| `Driver.SOEMDriver.constructor` | soem_driver/src/soem_driver.cpp:784-796 | before the export there are no transmission values and no translations |
| `Driver.SOEMDriver.Iterate` | soem_driver/src/soem_driver.cpp:798 | an iteration visits every key exactly once, in an order nothing else depends on |
| `Driver.SOEMDriver.CountTransmissionValues` | soem_driver/src/soem_driver.cpp:786-791 | the accumulated count is what the export needs |
| `Driver.SOEMDriver.ExportJoint` | soem_driver/src/soem_driver.cpp:804-895 | one joint's interfaces, each on the next value or the slave's own, and their translations |
| `Driver.SOEMDriver.ExportJoints` | soem_driver/src/soem_driver.cpp:798-895 | all joints' interfaces and translations, within the values allocated |
| `Driver.SOEMDriver.ExportCommandInterfaces` | soem_driver/src/soem_driver.cpp:781-901 | the handles stand one to one for the interfaces exported, the transmission values are used once each, and both maps the later switches go through are set up |
| `Driver.SOEMDriver.TranslateRequests` | soem_driver/src/soem_driver.cpp:978-985 | requests behind transmissions are renamed, all others pass, in order |
| `Driver.SOEMDriver.PrepareCommandModeSwitch` | soem_driver/src/soem_driver.cpp:974-988 | OK iff every slave can switch on the translated requests; no mode changes |
| `Driver.SOEMDriver.PerformCommandModeSwitch` | soem_driver/src/soem_driver.cpp:990-1004 | OK iff every slave can, and the slaves' modes are what the translated requests make of them |

## Left out

- The EtherCAT library (`ecx_*` calls): its answers are arbitrary working counters, images and error lists; bus bring-up, discovery and SDO writes are not part of this model. Input and output regions of the IOmap are taken to be disjoint and receive mailboxes no larger than the library's buffer.
- The state-machine library (hfsm2), whose source is not part of this model: tasks of a plan are taken in their listed order, a task runs when its origin is the state that succeeded, a plan with no tasks left has succeeded, and transitions apply after each `react` or `update`.
- The lock-free queues and `atomic::wait` themselves: a queue is a bounded first-in first-out list, waiting is a program counter that stays where it is until the flag is clear. All atomics are sequentially consistent, as in the source.
- Several configurations, runs or restarts: one bus start, one `run`, one `configure`. Of `stop()` only the store to the terminate flag is a step; its join and the clearing of both flags afterwards are not.
- Cyclic.SOEMMaster.ServeMailboxes: the library's error list is an unbounded first-in first-out list; its ring overflowing is not modelled. The 64-bit counters do not wrap.
- Cyclic.SOEMMaster.CyclicTask: takes the run's cycles as a list of what the bus, the clock and the reader do, since clock and sleep are outside.
- Bus.MailboxExchanges: bytes of `SMbx` behind the message, left from earlier and longer messages, are not characterised; the send is only promised to be the whole of `SMbx`, starting with the message bytes that fit.
- The order in which plugins are visited is their position on the bus, with one plugin for every bus slave.
- Tmcm1610Modules.TrinamicTMCM1610.Read: requires position and velocity to fit 32 bits when doubled, as the source doubles them in 32-bit integers; the diagnostics message is not built.
- Tmcm1610.MotionWritesFollowMode: says nothing of the effort setpoint for a torque constant of 0, where the source converts an infinite or undefined quotient to an integer.
- Tmcm1610Modules.TrinamicTMCM1610.LeafWrite: with a torque constant of 0 the source divides by it, the model writes setpoint 0; setpoints are unbounded integers, not truncated to 32 bits.
- Tmcm1610Modules.TrinamicTMCM1610.Configure: parameters are numbers or absent; parsing text is not modelled. The gripper is not modelled.
- Units.PositionRoundTrip: arithmetic is over the reals, so floating-point rounding is not captured (nor in the other conversions).
- Resolver.ECClaimsResolver.ResolveInterfacesByJoint: one method with the kind as a parameter stands for the state and the command version, which differ only in the kind and in keeping the index.
- Resolver.ECClaimsResolver.constructor: claims with more than four fields are excluded, as they overrun the source's array; slaves are kept by name as values, so sharing of slave objects is not captured. A slave either keeps the interface's default switch methods or is a TMCM1610, the only module that overrides them.
- Driver.SOEMDriver.ExportCommandInterfaces: called once; configuring the transmission objects and their numeric behaviour are left out. The export of state interfaces allocates its values in the same way and is left out.
- URDF, XML and YAML parsing, plugin loading, logging, the diagnostics node, the mock module, endianness helpers and packed-structure layout: plumbing or only easy facts.
