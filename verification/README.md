# FreeWPC in Dafny

A Dafny model of the allocators, schedulers and state machines of the FreeWPC
pinball operating system, with proofs of what they promise. Verify it with
`dafny verify dfyconfig.toml`.

FreeWPC keeps its state in shared globals and small arrays. Code between two
sleeps is one atomic step; the interrupt-level functions are steps of their own.
Most components therefore come in two files. One holds the steps as functions
on a state value and the theorems about them: invariants over every reachable
state, refinement of a simple description, exact conditions. The other holds the
program as it runs: a class with the globals as fields, whose methods update them
in place and end in exactly the state the step function gives.

| component | steps and theorems | in place |
|---|---|---|
| lamp sets and the lamp-effect allocator | `Leff.dfy`, `LampSet.dfy` | `LeffTable.dfy`, `LampSet.dfy` |
| solenoid pulse driver and its request ring | `Sol.dfy`, `Queue.dfy` | `SolDriver.dfy`, `Queue.dfy` |
| switch debounce queue | `Switches.dfy` | `SwitchQueue.dfy` |
| simulator timer wheel | `Timing.dfy` | `Timing.dfy` |
| simulator ball graph | `Balls.dfy` | `BallGraph.dfy` |
| game lifecycle and extra balls | `Game.dfy` | `GameMachine.dfy` |
| per-player data | `Players.dfy` | `PlayerMemory.dfy` |
| ball device controller | `Device.dfy` | `DeviceTask.dfy` |
| vertical scrolls of the display | `Dmd.dfy` | `DmdTransition.dfy` |
| number printing | `Printf.dfy` | `Printer.dfy` |
| score arithmetic and high scores | `Scores.dfy`, `HighScores.dfy` | `ScoreRoutines.dfy`, `HighScoreTable.dfy` |
| files in battery-backed memory and their checksums | `Files.dfy` | `FileTable.dfy` |
| serial number in the security PIC | `Pic.dfy` | `PicReader.dfy` |
| lamp list rotation | `LampLists.dfy` | `LampMatrix.dfy` |

## Conditions and exact limits

Some properties hold only under a condition. Where the code does not establish
the condition itself, a lemma gives it as an if and only if; where the failing side
is not plain from the condition, a second lemma gives a run or an input that fails.

- Killing a task group spares the caller (`cpu/native/ntask.c`), so a lamp effect
  that stops its own slot leaves a live task behind: `Leff.StepInvIff`,
  `Leff.SelfStopBreaks`. Stopping the null effect can free lamps that are in use:
  `Leff.StopNullInvIff`, `Leff.NullStopBreaks`.
- A ring of n bytes holds n - 1 elements; one more reads as empty: `Queues.FifoIff`,
  `Queues.RingOverrun`. Eight requests queued during one pulse are lost:
  `Sol.EightRequestsLost`.
- A solenoid timeout below 4 set during a pulse stops the countdown:
  `Sol.TimeoutInvIff`, `Sol.TimeoutCutsPulse`.
- A ball device's update task can be killed while it holds the solenoid lock
  (`common/device.c:474`, `:505`); nobody releases the lock after that, and no
  requester ever gets through again: `Sol.KillInvIff`, `Sol.StuckForever`,
  `Sol.KilledHolderBlocks`. Outputs and mutual exclusion are safe all the same:
  `Sol.ReachableInv`.
- The debounce timer is a signed byte: `Switches.AgeIff`, `Switches.LateSwitchWaits`.
- A registration with the timer wheel waits for the ticks asked for only within one
  turn of the wheel: `Timing.DeadlineIff`, `Timing.WholeTurnRunsNow`.
- A ball that arrives at a full node belongs nowhere afterwards: `Balls.ArrivalIff`,
  `Balls.SecondArrivalLost`.
- Player data is independent only if a record fits its slot: `Players.IndependentIff`,
  `Players.OverlapDamages`.
- With more kicks pending than balls counted the byte difference wraps, and kicks
  are accepted for balls that are not there: `Devices.AcceptIff`,
  `Devices.ThreeKicksOneBall`.
- A scroll up whose step does not divide the page jumps over its end test, and its
  next frame reads past the new page: `Dmd.EndsIff`, `Dmd.ThreeLinesRunPast`. What
  such a transition does after that depends on the memory behind the page and the
  wrap of the 16-bit pointer. A scroll down by such a step ends with old rows on
  the screen: `Dmd.ShowsNewIff`.
- A frame may be composed on the pages being shown, but only the first one:
  `Dmd.NeverShownIff`, `Dmd.FirstCompositeSeen`.
- Scores of 12 digits get no separators: `Printf.GroupedIff`.
- The native decimal adjust does not see the half carry, so native additions are
  right only while no digit with its carry reaches 16: `Scores.AddIff`,
  `Scores.NativeLosesDigit`. Otherwise they lose 6 or 160 per byte:
  `Scores.AddLoses`. A native product is right exactly if these losses add up to a
  multiple of the width, and they can: `Scores.MultiplyIff`, `Scores.LossesCancel`.
- An incumbent whose first initial is at most 4 would be prompted for initials:
  `HighScores.CallsIff`, `HighScores.StaleNumberCalled`, `HighScores.FifthPlayerCalled`.
- A file's version is kept in four bits, so a version of 16 or more always resets:
  `Files.RebootIff`, `Files.VersionSixteenLost`. Version zero can escape a reset of
  everything: `Files.ResetKeepsVersionZeroIff`, `Files.VersionZeroKept`.
- The fourth PIC register has sixteen bits: `Pic.DecodeIff`, `Pic.ZeroesMisread`.

Where comments and code of the original disagree, the model follows the code:

- `kernel/switches.c` says a switch is no longer queued when it transitions; its
  entry is removed afterwards.
- `common/eb.c:87-94` is meant to give points when extra balls are disabled, but is
  reached only if they are not: `Games.PointsNeverAwarded`.
- `sim/node.c:205-206` says a ball in transit is attached to no node; it already
  names its destination.
- `common/device.c:316-323` says the trough keeps its kick requests after too many
  failures; they are cancelled there too.
- `common/pic.c:121-124` says the byte after the serial number is zero; it is the
  digit `'0'`.
- `kernel/file.c:94-98` says a reset invalidates all files; see version zero above.

## Model

| member | source | states |
|---|---|---|
| `LampSets.Add` | kernel/lampset.c:47-55 | the destination words become the union of the two lamp sets, in place |
| `LampSets.Subtract` | kernel/lampset.c:58-66 | the destination words become the set difference, in place |
| `LampSets.Disjoint` | kernel/lampset.c:69-82 | true exactly if the two sets share no lamp |
| `LampSets.CanBeAdded` | kernel/lampset.c:85-98 | true exactly if every lamp of the second set is in the first |
| `LampSets.WordTests` | kernel/lampset.c:69-98 | the accumulated words of the two loops are zero exactly if no lamp is shared, and exactly if every lamp of the second set is in the first, for all words |
| `LeffTables.LeffTable.GidFindById` | kernel/leff.c:204-213 | the slot that runs an effect, or none if no slot does |
| `LeffTables.LeffTable.GidAlloc` | kernel/leff.c:172-197 | the circular search on live tasks returns the first idle slot from the rotating start and advances the start past it, or fails and leaves it |
| `Leff.AllocExact` | kernel/leff.c:172-197 | the search ends, finds the idle slot nearest to the start, and fails only if all slots are busy |
| `LeffTables.LeffTable.FindBlocker` | kernel/leff.c:253-275 | finds a running effect that overlaps and is at least as important exactly if there is one |
| `LeffTables.LeffTable.CanPreempt` | kernel/leff.c:253-294 | refuses and changes nothing, or closes slots one by one as the slot-level preemption does |
| `Leff.PreemptExact` | kernel/leff.c:277-294 | preemption closes exactly the overlapping slots of strictly lower priority, keeps the resource invariant, kills exactly their tasks other than the caller, and darkens exactly their lamps |
| `LeffTables.LeffTable.Close` | kernel/leff.c:303-323 | data bits, free bits and the running list after closing a slot |
| `LeffTables.LeffTable.Start` | kernel/leff.c:340-388 | the words, list, slot counter and live tasks change as the slot-level start does, on every path |
| `Leff.StartExact` | kernel/leff.c:340-388 | a start either changes no running effect (already running, no idle slot, or blocked) or runs the new one in the nearest idle slot after stopping precisely the running effects that overlap it, all of strictly lower priority, whose lamps alone go dark |
| `Leff.RefusedStart` | kernel/leff.c:340-375 | a refused start changes at most the rotating slot counter |
| `Leff.FreeMeansNoOverlap` | kernel/leff.c:237-241 | the needed lamps are all free if and only if no running effect overlaps |
| `LeffTables.LeffTable.Stop` | kernel/leff.c:394-413 | stopping by id on the shared tables, nothing changed if it does not run |
| `Leff.StopInvIff` | kernel/leff.c:394-413 | stopping keeps the whole invariant if and only if the caller is not stopping itself, since killing a task group spares the caller |
| `Leff.SelfStopBreaks` | kernel/leff.c:394-413 | a run where it happens: an effect is started and its own task stops it; its slot is idle and its task lives |
| `Leff.StopNullInvIff` | kernel/leff.c:394-413 | stopping the null effect keeps the invariant if and only if no slot is idle or the null effect's lamps are free |
| `Leff.NullStopBreaks` | kernel/leff.c:394-413 | a run where it happens: one effect runs and the null effect, whose lamps it shares, is stopped |
| `LeffTables.LeffTable.Restart` | kernel/leff.c:460-482 | restart on the shared tables: data bits cleared and a fresh task in the same slot, or a start |
| `Leff.RestartKeeps` | kernel/leff.c:460-482 | restarting a running effect keeps the invariant |
| `Leff.RestartExact` | kernel/leff.c:460-482 | restarting a running effect darkens exactly its lamps and keeps slot, lamps and task; restarting another one is starting it |
| `LeffTables.LeffTable.Exit` | kernel/leff.c:432-451 | an effect that exits gives back its lamps, slot and task |
| `Leff.ExitExact` | kernel/leff.c:303-451 | an effect that exits leaves its slot idle, its task gone and its lamps free and dark, and no other slot, task, free lamp or lit lamp changes |
| `LeffTables.LeffTable.Reset` | kernel/leff.c:489-502 | all slots idle, all lamps free, no lamp on; the slot counter and live tasks stay |
| `LeffTables.LeffTable.StopAll` | kernel/leff.c:505-512 | as reset, and only the caller's own task may survive |
| `Leff.StopAllExact` | kernel/leff.c:489-512 | after stopping all no effect runs, every lamp is free and dark, no task but the caller's lives, and the slot counter stays |
| `Leff.DrawExact` | kernel/lamp.c:333-365 | drawing changes exactly one lamp |
| `LeffTables.LeffTable.constructor` | kernel/leff.c:553-557 | power-up gives the initial state of the state machine |
| `Leff.StepInvIff` | kernel/leff.c:340-512 | each call keeps the invariant if and only if it does not close the slot of the very caller |
| `Leff.ReachableInv` | kernel/leff.c:219-512 | in every state reachable by start, stop, restart, exit, stop-all and drawing: the free set is the complement of the running effects' lamps, those are pairwise disjoint, no effect runs twice, a slot names an effect exactly if its task lives, and no unallocated lamp is on |
| `Queues.ByteQueue.Put` | include/queue.h:62-69 | the contents grow at the back, or, when the ring is overfilled, read as empty |
| `Queues.ByteQueue.Take` | include/queue.h:73-84 | the oldest element is taken from the front and the rest stays |
| `Queues.ByteQueue.IsEmpty` | include/queue.h:87-90 | true exactly if there are no contents |
| `Queues.FifoIff` | include/queue.h:55-90 | one more insertion is a FIFO insertion if and only if the ring keeps a slot to spare |
| `Queues.RingOverrun` | include/queue.h:62-69 | two insertions into an empty ring of two bytes leave it empty |
| `SolDrivers.SolDriver.StartSpecific` | kernel/sol.c:115-146 | starting a pulse sets coil, duty and countdown only if no pulse runs and the coil exists |
| `Sol.StartExact` | kernel/sol.c:115-146 | a pulse gets the coil, duty and a quarter of the time given if none runs and the coil exists, and otherwise nothing changes |
| `SolDrivers.SolDriver.IdleService` | kernel/sol.c:184-192 | the idle service starts the oldest queued request if the driver is free |
| `SolDrivers.SolDriver.RequestAsync` | kernel/sol.c:199-217 | an asynchronous request starts at once or is queued |
| `Sol.AsyncStarts` | kernel/sol.c:199-217 | an asynchronous request pulses its own coil with its own duty and time if the driver is free, and otherwise is last in the ring and leaves the running pulse alone |
| `SolDrivers.SolDriver.Wake` | kernel/sol.c:231-299 | one turn of the waits for the lock and for the end of the pulse: take the free lock, or release after the interrupt's signal |
| `Sol.WakeStarts` | kernel/sol.c:231-299 | the wake-up that takes the free lock starts the pulse of the coil asked for with that coil's duty and time; otherwise nothing happens |
| `Sol.WakeReleases` | kernel/sol.c:263-275 | a requester leaves only when signalled, and then the lock is free |
| `Sol.AskedCoil` | kernel/sol.c:231-299 | over every interleaving the pulse a requester waits for is on the coil it asked for |
| `SolDrivers.SolDriver.Kill` | common/device.c:471-520 | a killed requester leaves lock, countdown and outputs as they are |
| `SolDrivers.SolDriver.ReqOn` | kernel/sol.c:302-305 | exactly the current coil's output bit is set, all other bits stay |
| `SolDrivers.SolDriver.ReqOff` | kernel/sol.c:308-311 | exactly the current coil's output bit is cleared, all other bits stay |
| `SolDrivers.SolDriver.Tick` | kernel/sol.c:321-339 | the interrupt counts down, drives the output by the duty strobe, and at zero turns it off and signals the waiting requester |
| `Sol.TickDrives` | kernel/sol.c:321-339 | until the last interrupt of a pulse the current coil, and no other, is on exactly if duty and strobe share a bit; the last one turns it off, clears the duty and signals whoever holds the lock |
| `Sol.ModifiedDutyDrives` | kernel/sol.c:248-255 | a duty set during a pulse drives the coil from the next interrupt on |
| `SolDrivers.OutputChange` | kernel/sol.c:302-311 | changing one bit of one register byte changes no other coil |
| `Sol.StepInvIff` | kernel/sol.c:115-339 | every step, the killing of a task among them, keeps the driver invariant if and only if a changed timeout does not stop a countdown somebody depends on and a killed task does not hold the lock |
| `Sol.TimeoutInvIff` | kernel/sol.c:257-260 | modifying the timeout keeps the invariant if and only if it is at least 4, or no pulse runs, or nothing is driven and nobody waits |
| `Sol.TimeoutCutsPulse` | kernel/sol.c:257-260 | where it happens: a timeout of 3 set after the first tick of a pulse stops the countdown with the coil driven |
| `Sol.KillInvIff` | common/device.c:471-520 | killing a task keeps outputs and mutual exclusion in any case, and keeps the driver available if and only if the task was only waiting for the lock |
| `Sol.StuckForever` | kernel/sol.c:231-299 | once the holder of the lock has been killed, the lock stays taken and nobody ever gets through, over every further run |
| `Sol.KilledHolderBlocks` | common/device.c:471-520 | a run where it happens: a request, its first wake-up, and a kick request that kills it |
| `Sol.TakenIsStarted` | kernel/sol.c:184-192 | the idle step that takes a request from the ring starts its pulse, with its coil, duty and time |
| `Sol.EightRequestsLost` | kernel/sol.c:199-217 | eight requests queued during one pulse are all lost |
| `Sol.ReachableInv` | kernel/sol.c:115-404 | over all interleavings, and whatever tasks are killed: at most one requester is between allocation and release, the pulse it waits for is on the coil it asked for, only the current coil is ever driven, and nothing is driven while the countdown is zero; and the driver is free whenever nobody holds it if no holder is killed |
| `Sol.ReleaseAfterOwnPulse` | kernel/sol.c:231-299 | a requester releases the driver only after the pulse it started itself has counted down |
| `Sol.PulseCountsDown` | kernel/sol.c:321-339 | no step but the interrupt moves the countdown: after k ticks a pulse of T has T - k left, for the same coil and requester |
| `Sol.PulseLength` | kernel/sol.c:321-339 | a pulse started at T ticks is off after exactly T ticks and not before |
| `Sol.QueuedInOrder` | kernel/sol.c:184-217 | while the ring is not overfilled, requests are taken from the ring, and so started, in the order they were made |
| `SwitchQueues.SwitchDriver.QueueAdd` | kernel/switches.c:385-396 | an entry and its index bit are added, or nothing when the queue is full |
| `SwitchQueues.SwitchDriver.QueueRemove` | kernel/switches.c:399-407 | the last entry moves into the hole and the index bit is cleared |
| `Switches.StableIff` | include/system/platform.h:15-21 | a switch becomes stable exactly when two readings in a row differ from the level latched |
| `Switches.UnstableIff` | include/system/platform.h:15-21 | a stable switch is marked unstable exactly by a reading of the latched level |
| `Switches.ScansAfresh` | kernel/switches.c:348-380 | after a transition the level is toggled and it takes two new readings in a row to make the switch stable again |
| `SwitchQueues.SwitchDriver.ServiceQueue` | kernel/switches.c:427-473 | one pass over the pending entries in place, with interrupts between turns, ends in the state of the turn-by-turn pass |
| `Switches.ServiceQueue` | kernel/switches.c:427-473 | one pass decrements each surviving entry exactly once and retires exactly the entries whose time is up, although removal moves the last entry into the current place |
| `Switches.SwapRemoval` | kernel/switches.c:399-407 | swap-removal loses nothing but the removed entry from what the pass still has to visit |
| `Switches.TurnLevels` | kernel/switches.c:348-458 | each turn, whatever interrupts came before it, toggles exactly the switch of its entry and only if its time is up and it is steady, and that switch is not due again |
| `Switches.ServiceLevels` | kernel/switches.c:348-473 | over a whole pass an unstable or not yet due switch never toggles, whatever the interrupts, and without interrupts each due steady one toggles exactly once and is scanned afresh |
| `Switches.ServiceFate` | kernel/switches.c:348-473 | over a whole pass with any interrupts, a due switch toggles if and only if the readings taken until its turn comes do not mark it unstable |
| `Switches.BounceRefused` | kernel/switches.c:427-473 | a due switch that shows its old level in any reading before its turn keeps it |
| `Switches.AgeIff` | kernel/switches.c:431-441 | retiring agrees with the time that passed if and only if it does not underflow the signed byte |
| `Switches.QueuedForOne` | kernel/switches.c:385-396 | a run after which a switch is queued for one tick |
| `Switches.LateSwitchWaits` | kernel/switches.c:427-473 | such a switch, serviced 200 ticks later, is kept and waits for 57 more |
| `SwitchQueues.SwitchDriver.UpdateStable` | kernel/switches.c:518-526 | a stable switch transitions at once or is queued for debouncing |
| `SwitchQueues.SwitchDriver.Periodic` | kernel/switches.c:532-583 | the periodic service and poll in place equal their steps on values |
| `Switches.PollFate` | kernel/switches.c:518-582 | a stable switch is dropped from neither view: it transitions if it needs no debouncing, otherwise it is queued, or stays stable because the queue is full |
| `Switches.PollTimer` | kernel/switches.c:385-396 | a switch the poll queues waits for exactly its own debounce time, as a signed byte |
| `Switches.DebounceLaw` | kernel/switches.c:427-583 | read at the new level all the while, a queued switch keeps its old level until the ticks at the services add up to its timer, has the new one from that very service on, and is not toggled again, over every run of scans, services and polls |
| `Switches.Debounced` | kernel/switches.c:385-583 | from the poll that queues it, a switch changes at the first service at which the elapsed ticks reach its debounce time and not before |
| `Switches.ReachableInv` | kernel/switches.c:385-582 | over every run with arbitrary readings the queue holds distinct switches, the bit index names exactly those, and each is still marked stable |
| `Timing.Wheel.TimeRegister` | sim/timing.c:68-84 | the new handler is put in front of the list of the slot the given ticks ahead |
| `Timing.Wheel.TimeStep` | sim/timing.c:92-134 | the current slot is detached, every handler of it runs once in order, periodic ones are registered again, and the time advances |
| `Timing.DeadlineIff` | sim/timing.c:68-84 | a registration comes due after exactly the ticks asked for if and only if they are 0..255 outside a step or 1..256 inside a callback |
| `Timing.WholeTurnRunsNow` | sim/timing.c:68-84 | a registration for a whole turn of the wheel runs at the next step |
| `Timing.RegisterWaits` | sim/timing.c:68-84 | a registration adds exactly one handler, at its absolute deadline, and disturbs no other deadline |
| `Timing.StepWaits` | sim/timing.c:92-134 | after a step everything that waited for a later tick still does, and only what the handlers created is new |
| `Timing.FiresAtDeadline` | sim/timing.c:92-134 | the 256-slot wheel refines a multiset of absolute deadlines: at each tick a handler runs exactly as often as it waits for that tick, over any run of callbacks that register more |
| `Timing.PeriodicRuns` | sim/timing.c:110-130 | a periodic handler runs at its first deadline plus whole periods and at no other tick |
| `Timing.RegisteredRuns` | sim/timing.c:68-134 | a registration between steps, of a callback nobody else registers, is called at the tick asked for, and at whole periods after it if it is periodic, and at no other tick |
| `Timing.CallbackRegistrationRuns` | sim/timing.c:68-134 | the same for a registration made by a running callback, up to a whole turn of the wheel ahead |
| `BallGraphs.BallGraph.Insert` | sim/node.c:137-166 | insertion into the ring buffer appends to the node's queue, or is refused for a placed ball or a full or untyped node |
| `Balls.InsertExact` | sim/node.c:137-166 | an insertion is refused, or puts the ball at the back and schedules the kick of an unlocked node exactly if its next node has room then |
| `BallGraphs.BallGraph.Remove` | sim/node.c:170-203 | removal takes the head ball and may kick the node before, recursively |
| `BallGraphs.BallGraph.Move` | sim/node.c:238-271 | moving on the ring buffers equals the move on queues |
| `BallGraphs.BallGraph.Update` | sim/node.c:211-223 | a travelling ball's timer on the ring buffers |
| `BallGraphs.RingPush` | sim/node.c:154-156 | writing at head + count extends the ring's contents at the back |
| `BallGraphs.RingPop` | sim/node.c:181-190 | advancing the head takes the front of the ring's contents |
| `Balls.Remove` | sim/node.c:170-203 | a removal takes the front ball, makes it free and keeps the graph invariant, through whatever it pulls along |
| `Balls.RemoveAlone` | sim/node.c:170-203 | if no ball can follow, a removal changes the node's queue and its front ball and nothing else |
| `Balls.RemovePulls` | sim/node.c:170-279 | otherwise the front ball of the unlocked node before leaves too, with all that follows it, and is at the back of that node's next node, or travels there, or could not enter it |
| `Balls.LaneAdvances` | sim/node.c:170-279 | taking the front ball of a lane of unlocked nodes, of any length, moves every front ball of the lane one node on, at once or with its node's delay, and nothing else in the graph |
| `Balls.Move` | sim/node.c:238-279 | moves and kicks keep the graph invariant and free no ball that belonged nowhere |
| `Balls.MoveDelivers` | sim/node.c:238-271 | a moved ball stands at the back of the destination's queue, or travels there for the source's delay with its arrival due, and exactly when it is left belonging nowhere |
| `Balls.ArrivalIff` | sim/node.c:211-223 | an arriving ball enters its destination if and only if the node is typed and has room; otherwise it is lost from the graph |
| `Balls.TravelLaw` | sim/node.c:205-232 | as long as whole periods do not make up its travel time a ball stays on its way and nothing else changes |
| `Balls.SecondArrivalLost` | sim/node.c:200-271 | a run where it happens: two balls leave a node with a delay for a node of size one, and the second to arrive belongs nowhere |
| `Balls.InsertDelayInvIff` | sim/node.c:225-232 | a delayed insertion keeps the invariant if and only if the ball belonged nowhere |
| `Balls.InitInv` | sim/node.c:298-320 | with all balls free and all nodes empty the graph invariant holds, for every topology |
| `Balls.RunKeepsInv` | sim/node.c:137-279 | under any sequence of inserts, delayed inserts, moves, kicks and callbacks no ball is in two places, each queued ball names its queue, and counts never exceed node sizes |
| `GameMachines.GameMachine.StartBall` | kernel/game.c:428-455 | the shared variables after the start of a ball |
| `Games.StartBallExact` | kernel/game.c:428-455 | a ball adds one turn of the player up, and clears his extra-ball count, and nobody else's, on his first ball |
| `Games.NewBallInvalid` | kernel/game.c:428-455 | every ball that starts, and nothing else during a game, leaves playfield and tilt unset |
| `GameMachines.GameMachine.StartGame` | kernel/game.c:567-598 | a new game starts with one player on ball 1, unless a game is on |
| `GameMachines.GameMachine.StopGame` | kernel/game.c:606-634 | the game ends, and end_player is announced for the players counted down only if the last ball was not over; keeps the game invariant |
| `GameMachines.GameMachine.StartButton` | kernel/game.c:666-744 | the start button starts, adds a player, restarts or does nothing, on every path; keeps the game invariant |
| `Games.StartButtonOutcome` | kernel/game.c:666-744 | the start button begins a fresh game, adds a player on ball 1, begins a new game later on, or does nothing, each exactly under its conditions |
| `Games.StartAndStop` | kernel/game.c:567-634 | a game starts only if none is on, and then afresh; a stopped game leaves no flag set and nobody up |
| `GameMachines.GameMachine.IncrementExtraBalls` | common/eb.c:64-113 | an extra ball is awarded exactly below both limits; keeps the game invariant |
| `Games.AwardExact` | common/eb.c:64-113 | exactly below both limits an award raises the balls to play, this ball's count and this player's count by one, and nothing else |
| `GameMachines.GameMachine.DecrementExtraBalls` | common/eb.c:118-131 | one extra ball is used up if there is one, otherwise the per-ball count is cleared |
| `GameMachines.GameMachine.SetValidPlayfield` | kernel/game.c:516-524 | the playfield becomes valid during a game only; keeps the game invariant |
| `GameMachines.GameMachine.EndBall` | kernel/game.c:208-260 | a drain before the playfield is valid is ignored unless tilted; keeps the game invariant |
| `Games.DrainCommitsIff` | kernel/game.c:208-260 | a drain is taken as the end of the ball exactly if the playfield is valid or the game tilted |
| `Games.NoBallEnds` | kernel/game.c:208-341 | over any run without a valid playfield and a tilt no ball ends |
| `GameMachines.GameMachine.FinishBall` | kernel/game.c:262-341 | same player again, next player, next ball or end of game; keeps the game invariant |
| `Games.RunKeepsInv` | kernel/game.c:208-744 | every run keeps 1 <= player_up <= num_players <= max_players during a game, ball numbers in range, and the turns so far in playing order |
| `Games.PlayerChange` | kernel/game.c:286-330 | the player changes only when no extra ball is left, and the next one starts with none |
| `Games.RoundRobin` | kernel/game.c:298-330 | regular turn k belongs to player k mod n on ball k div n |
| `Games.TurnBound` | kernel/game.c:208-341 | no player plays more than balls_per_game + max_ebs balls, and at the end everybody has played every regular ball |
| `Games.CommitBound` | kernel/game.c:208-341 | a game ends after at most max_players * (balls_per_game + max_ebs) balls that are not refused |
| `Games.PointsNeverAwarded` | common/eb.c:73-94 | with extra balls disabled by adjustment nothing changes: the branch meant to give points instead cannot be reached |
| `PlayerMemories.PlayerMemory.StartGame` | kernel/player.c:67-75 | all save areas, lamps and flags are cleared in place |
| `Players.SaveBaseIs` | kernel/player.c:43-65 | player p's save area starts p slots into the block |
| `PlayerMemories.PlayerMemory.Save` | kernel/player.c:81-89 | three copies into a player's area make up exactly his record |
| `PlayerMemories.PlayerMemory.Restore` | kernel/player.c:95-103 | three copies back give exactly the parts of the record |
| `Players.SwitchKeepsViews` | kernel/game.c:298-314 | a player change changes nobody's data: the one who comes up finds what he left |
| `Players.RunIsOwned` | kernel/player.c:67-103 | shared globals plus save areas refine one private state per player over every sequence of play and player changes |
| `Players.IndependentIff` | kernel/player.c:43-65 | no change between any two players alters any player's data if and only if a record fits its fixed-size slot |
| `Players.OverlapDamages` | kernel/player.c:43-65 | where a record does not fit: one byte of player 2 is set, and after a change from player 1 player 2 finds other data |
| `Players.StartsZero` | kernel/player.c:67-75 | every player starts with all data zero |
| `DeviceTasks.DeviceTask.Recount` | common/device.c:161-188 | recounting remembers the count before |
| `DeviceTasks.DeviceTask.Wake` | common/device.c:227-455 | each wake-up of the update loop, across its jumps, is one step of the controller; keeps the kick account |
| `DeviceTasks.DeviceTask.RequestKick` | common/device.c:471-494 | a kick request is accepted by the byte difference of balls and pending kicks; keeps the kick account exactly if the pending count does not overflow |
| `Devices.RequestKickOutcome` | common/device.c:471-494 | while no more kicks are pending than balls counted, a request adds a pending kick with all its retries exactly if a ball is not yet spoken for, and restarts the update task in any case |
| `DeviceTasks.DeviceTask.RequestEmpty` | common/device.c:500-520 | a request to empty adds one kick per ball not yet spoken for, clears the errors and restores the default count; keeps the kick account |
| `Devices.RequestEmptyOutcome` | common/device.c:500-520 | after a request to empty: one kick per ball, no errors, the default count to hold, the task restarted, and the change of pending kicks accounted for |
| `Devices.SwitchWakes` | common/device.c:681-700 | a device switch starts the update task if it has ended and leaves a running one alone |
| `Devices.AcceptIff` | common/device.c:461-483 | acceptance agrees with there being a ball not yet spoken for if and only if no more kicks are pending than balls counted |
| `Devices.ThreeKicksOneBall` | common/device.c:227-494 | a run where it happens: two kicks are pending, a ball leaves by itself, and a third kick is accepted with one ball left |
| `Devices.EmptyKicksAll` | common/device.c:500-520 | after a request to empty one kick is pending per ball, whatever was pending before |
| `Devices.PollOutcome` | common/device.c:298-399 | the whole state after a poll while releasing: the balls that left are credited and the release ends, or one retry is used, or at the limit all pending kicks are cancelled |
| `Devices.PassOutcome` | common/device.c:368-455 | a pass of the update loop with no release under way kicks exactly if a kick is pending, a ball is there, no lock holds it and nobody refuses; an overfull device schedules one kick; without a ball all kicks are cancelled |
| `Devices.RetryOutcome` | common/device.c:368-455 | a failed kick is tried again unless it is held back |
| `Devices.SleepsInTurn` | common/device.c:227-260 | a pulse is followed by settling and settling by a poll |
| `Devices.StepInvIff` | common/device.c:227-520 | each step keeps the kick account if and only if the pending count does not overflow its byte |
| `Devices.ReachableInv` | common/device.c:227-520 | for every sequence of readings and requests accepted kicks = successes + cancellations + pending, and pending kicks imply fewer errors than the limit of 7 (20 for the trough), so the equality test is never jumped over |
| `DmdTransitions.Display.Alloc` | kernel/dmd.c:240-247 | round-robin page pairs |
| `DmdTransitions.Display.AllocComposite` | kernel/dmd.c:537-540 | the retry loop ends with the first pair that holds no new page |
| `DmdTransitions.Display.Cycle` | kernel/dmd.c:473-491 | one plane: old rows copied shifted, then new rows, into the composite page |
| `DmdTransitions.Display.DoTransition` | kernel/dmd.c:509-569 | the whole loop on the page buffers, after exactly the number of whole steps, ends with both visible planes scrolled by the final amount from the old to the new pages |
| `DmdTransitions.Display.CompositeOld` | common/dmdtrans.c:86-95 | the old rows of a scroll, up or down |
| `DmdTransitions.Display.CompositeNew` | common/dmdtrans.c:98-110 | the next new rows of a scroll, the pointer and the end test, up or down |
| `Dmd.ComposeStep` | common/dmdtrans.c:81-162 | copying shifted old rows and then new rows onto any page moves the picture one step |
| `Dmd.FrameMoves` | kernel/dmd.c:523-566 | every frame moves both visible planes one step on, onto the fresh pair, and keeps the new pages and the distance from the next composite |
| `Dmd.AfterFrames` | kernel/dmd.c:509-569 | after k frames both visible planes equal the old plane shifted by k steps joined to the matching part of the new plane, and the new pages are untouched |
| `Dmd.CompositeFresh` | kernel/dmd.c:240-247 | the chosen pair never holds a new page, and consecutive pairs differ |
| `Dmd.NeverShownIff` | kernel/dmd.c:509-569 | no frame of the loop is composed on a pair being shown at that moment if and only if the first one is not |
| `Dmd.FirstCompositeSeen` | kernel/dmd.c:240-247 | a state where the first one is: the allocator is about to hand out the pair on the screen |
| `Dmd.EndsIff` | kernel/dmd.c:509-569 | the loop comes to an end inside the new pages if and only if it scrolls down or its step divides the page; it ends after exactly the number of whole steps and not before; a scroll up with another step goes on after those, and its next frame reads past the new page |
| `Dmd.ThreeLinesRunPast` | common/dmdtrans.c:98-110 | a scroll up by 48 bytes: ten frames, none of them the last, and the eleventh reads past the new page |
| `Dmd.ShowsNewIff` | common/dmdtrans.c:81-162 | a scroll that ends shows exactly the new picture if and only if its step divides the page |
| `Printers.Printer.Decimal` | kernel/printf.c:97-121 | a byte's digits, with a hundreds digit only if there is one |
| `Printers.Printer.LongDecimal` | kernel/printf.c:127-146 | a word's five digits by repeated subtraction of powers of ten |
| `Printers.Printer.HexByte` | kernel/printf.c:150-169 | two digits, each followed by a separator if its bit says so |
| `Printers.Printer.Bcd` | kernel/printf.c:360-397 | a score's digits with the separators its width calls for, appended to the buffer |
| `Printers.Printer.Fixup` | kernel/printf.c:250-296 | leading zeroes and separators removed by shifting the rest down in place |
| `Printers.Printer.PrintLong` | kernel/printf.c:127-146 | %ld leaves decimal digits that read back as the word, without a leading zero, or one zero |
| `Printers.Printer.PrintByte` | kernel/printf.c:97-121 | %d leaves decimal digits that read back as the byte, without a leading zero, or one zero |
| `Printers.Printer.PrintScore` | kernel/printf.c:360-397 | reading back what %b left in the buffer gives the number, there is no leading zero or separator unless the number is zero, a score of nothing is two zeroes, and 8- and 10-digit scores keep a separator exactly every three digits |
| `Printf.LongRoundTrip` | kernel/printf.c:127-146 | printing a word and reading the digits gives the word, for all words and separators |
| `Printf.LongText` | kernel/printf.c:127-146 | the text of a word is made of decimal digits only, and is one zero for zero |
| `Printf.DecimalRoundTrip` | kernel/printf.c:97-121 | printing a byte and reading the digits gives the byte |
| `Printf.DecimalText` | kernel/printf.c:97-121 | the text of a byte is made of decimal digits only, and is one zero for zero |
| `Printf.BcdRoundTrip` | kernel/printf.c:360-397 | printing a score and reading the digits, separators passed over, gives its number, for any length |
| `Printf.ZeroScoreText` | kernel/printf.c:250-296 | a score of nothing shows as two zeroes |
| `Printf.TrimReads` | kernel/printf.c:250-296 | removing leading zeroes keeps the number and leaves a significant digit first unless it is zero |
| `Printf.GroupedIff` | kernel/printf.c:372-386 | the separators stand exactly every three digits from the right if and only if the width is 2, 8 or 10 digits |
| `Printf.TrimGrouped` | kernel/printf.c:250-296 | removing leading zeroes leaves the separators where they belong |
| `Scores.CompareIsNumeric` | kernel/score.c:126-144 | on valid scores of the same width the comparison is the numeric order, in all three outcomes |
| `ScoreRoutines.ScoreCompare` | kernel/score.c:126-144 | the byte loop returns the sign of the comparison |
| `ScoreRoutines.BcdStringAdd` | cpu/native/bcd_string.c:42-48 | the carry loop from the last byte to the first, in place |
| `Scores.AddIff` | cpu/native/bcd_string.c:28-48 | the sum is made of decimal digits and equals the sum modulo the width if and only if every pair of digits with its carry fits: always on the 6809, up to 15 natively |
| `Scores.AddByteLoses` | cpu/native/bcd_string.c:28-39 | one adjusted byte is made of decimal digits and, with its carry, falls short of the sum by exactly 6 for a low digit that reaches 16 and 160 for a high one |
| `Scores.AddLoses` | cpu/native/bcd_string.c:28-48 | the sum of two scores falls short, modulo the width, by exactly what its bytes lose, on both processors |
| `Scores.HardwareFits` | cpu/m6809/bcd_string.s:27-43 | with the processor's own adjust instruction every pair of digits is added right |
| `Scores.NativeLosesDigit` | cpu/native/bcd_string.c:28-39 | natively 8 + 8 gives 10 |
| `ScoreRoutines.ScoreMul` | kernel/score.c:105-122 | multiplier - 1 additions of a copy, in place |
| `Scores.RepeatedValue` | kernel/score.c:105-122 | n additions of a score to itself give n + 1 times its value less exactly what the additions lose, modulo the width, on both processors |
| `Scores.MultiplyIff` | kernel/score.c:105-122 | a product is right modulo the width if and only if what its additions lose together is a multiple of it |
| `Scores.LossesCancel` | kernel/score.c:105-122 | natively 80 times 10 is right although the first addition is wrong |
| `Scores.MultiplyValue` | kernel/score.c:105-122 | on the 6809 the result is the product modulo the width for every multiplier, zero counting as one |
| `Scores.NativeDoubleIff` | kernel/score.c:105-122 | natively doubling is right if and only if every digit with its carry fits |
| `HighScoreTables.HighScoreTable.Free` | common/highscore.c:303-310 | the recursion moves every entry from the position on down by one, the last one into the slot beyond the table |
| `HighScoreTables.HighScoreTable.CheckPlayer` | common/highscore.c:317-340 | insertion above the first entry with a lower score, in place |
| `HighScoreTables.HighScoreTable.EnterInitials` | common/highscore.c:362-403 | the entry gets the initials and its player is called exactly if it carries a player number |
| `HighScoreTables.HighScoreTable.Check` | common/highscore.c:409-436 | all players in order, then the prompts from the lowest position up |
| `HighScores.CheckPlayerRanks` | common/highscore.c:303-340 | one insertion keeps the table equal to the top of the ranking of all candidates so far |
| `HighScores.CheckIsTopFive` | common/highscore.c:303-436 | from a descending table the result is the first five of the ranking of old entries and players, earlier candidates ahead of later ones on ties, and descending again |
| `HighScores.RankingSorts` | common/highscore.c:303-340 | the reference ranking has the same candidates in descending order |
| `HighScores.CallsIff` | common/highscore.c:362-436 | exactly the positions taken by new scores are prompted, with the right player, if and only if no surviving incumbent's first initial looks like a player number |
| `HighScores.StaleNumberCalled` | common/highscore.c:362-436 | where it happens: a player who got into the table but entered no initials is called again by a later check in which nobody qualifies |
| `HighScores.FifthPlayerCalled` | common/highscore.c:362-436 | where it happens: a first initial of 4 calls a fifth player |
| `HighScores.CheckOutcome` | common/highscore.c:303-436 | the whole check: incumbents untouched, every new score with the initials entered for its position, and the calls in order |
| `HighScores.RunKeepsDescending` | common/highscore.c:187-436 | the table stays descending over any sequence of games |
| `FileTables.FileTable.Find` | kernel/file.c:40-63 | the first usable entry of a type, corrupt entries on the way cleared |
| `FileTables.FileTable.Create` | kernel/file.c:67-80 | a new entry in the first free place, which keeps its old address, length and checksum |
| `FileTables.FileTable.AreaSum` | kernel/csum.c:65-68 | the byte loop sums an area modulo 256 |
| `FileTables.FileTable.AreaUpdate` | kernel/csum.c:58-73 | the checksum is stored in the entry found, or there is none |
| `FileTables.FileTable.AreaReset` | kernel/csum.c:81-88 | the defaults are written and their checksum stored |
| `FileTables.FileTable.AreaCheck` | kernel/csum.c:96-112 | an area whose checksum differs is reset |
| `Files.AreaCheckOutcome` | kernel/csum.c:96-112 | a check resets the area, and stores the checksum of its defaults, exactly if the stored checksum is another; apart from that it only clears corrupt entries |
| `FileTables.FileTable.Register` | kernel/file.c:117-183 | registration in place, on every path |
| `Files.NoTypeIgnored` | kernel/file.c:117-130 | an area without a type changes nothing |
| `Files.FindLooks` | kernel/file.c:40-63 | finding sees the first entry that is not corrupt and does nothing but clear corrupt ones |
| `Files.FoundIff` | kernel/file.c:40-63 | an entry is found exactly if its type, address and length are in range, and otherwise its place is free |
| `Files.RegisterOutcome` | kernel/file.c:117-183 | a registration succeeds if and only if the type is legal and an entry or free place exists; then the entry describes the area with its checksum, and contents are kept if and only if structure and checksum matched |
| `Files.RegisterAllIff` | kernel/file.c:86-183 | from any table all registrations succeed if and only if the areas without an entry are no more than the free places, corrupt ones included |
| `Files.AllSettled` | kernel/file.c:86-183 | after all registrations every area is found with current version, address, length and the checksum of its bytes, and one that had an entry holds its old bytes exactly if they were trusted in the table found at power up, one that had none its defaults unless its version is zero |
| `Files.RebootIff` | kernel/csum.c:96-112 | at the next power up an area lives if and only if its version is below 16 and its bytes still have the checksum |
| `Files.VersionSixteenLost` | kernel/file.c:117-183 | a run where it happens: an area of version 16 is registered, changed and summed, and the next power-up resets it |
| `Files.ResetOutcome` | kernel/file.c:99-108 | resetting all files works for exactly as many areas as there are places and restores the defaults of every area whose version is not zero |
| `Files.ResetKeepsVersionZeroIff` | kernel/file.c:67-108 | an area of version zero survives a reset of everything if and only if the first place still has its address, length and checksum |
| `Files.VersionZeroKept` | kernel/file.c:67-108 | a store where it happens: after a reset of everything the area still has its byte |
| `PicReaders.PicReader.StripDigits` | common/pic.c:178-200 | digits by repeated subtraction, stored where the strip table says |
| `PicReaders.PicReader.Init` | common/pic.c:253-327 | gathering and decoding in place give the decoded text of any register contents |
| `Pic.GatherFromIs` | common/pic.c:64-84 | every byte of the structure is written from exactly its own external register |
| `Pic.DecodeFromIs` | common/pic.c:97-108 | whatever the PIC shows, every position 0..16 is written exactly once, with its own decimal place of its own register |
| `Pic.EncodedFits` | common/pic.c:306-326 | for all serials and check bytes the encoded registers fit 24, 32, 24 and 17 bits |
| `Pic.Undone` | common/pic.c:140-171 | the arithmetic of every register is undone exactly, except that the last one comes out 65536 too big if it does not fit sixteen bits |
| `Pic.DecodeIff` | common/pic.c:282-326 | decoding undoes encoding for every pair of check bytes if and only if the number of digits 13, 12, 11, 10, 9 is at least 34464; the other twelve digits are right in any case |
| `Pic.ZeroesMisread` | common/pic.c:282-326 | where it happens: the serial number of seventeen zeroes is read with 65536 in digits 13 to 9, for all check bytes |
| `LampMatrices.LampMatrix.LastEntry` | kernel/lamplist.c:109-117 | the last lamp of the list, looking back over breaks |
| `LampMatrices.LampMatrix.RotateNext` | kernel/lamplist.c:421-446 | the forward pass over the matrix, in place |
| `LampMatrices.LampMatrix.RotatePrevious` | kernel/lamplist.c:449-481 | the backward pass over the matrix, in place |
| `LampLists.RotateNextIs` | kernel/lamplist.c:421-446 | rotating forward moves every lamp's state one lamp on, the last to the first, over any breaks, and leaves all other lamps alone |
| `LampLists.RotatePreviousIs` | kernel/lamplist.c:449-481 | rotating back moves every state one lamp back and leaves all other lamps alone |
| `LampLists.RotationsInverse` | kernel/lamplist.c:421-481 | each direction undoes the other, for every matrix |
| `LampLists.RotationsIs` | kernel/lamplist.c:421-446 | n rotations move every state n lamps on; a full circle changes nothing |

## Left out

- Hardware: register writes and their inversion, display windows, sound, watchdog, interrupt masking; the outputs of `SolDriver` are the register shadows.
- The task scheduler: a task is a member of a set of live task groups, and a sleep is a boundary between steps.
- Lamp effects: quick lamp allocation (`leff_quick_alloc`, switch lamp pulses), general illumination, flashers' triacs, peers and durations of effect tasks. Effects end only by `leff_exit` or by being stopped, and draw only on their own lamps.
- Solenoids: the machine hooks `sol_pulse` and `sol_request` (their default path is modelled), flashers, and the direct `sol_start` path.
- Switches: the interrupt's sampling is an arbitrary set of readings per scan; an interrupt between the instability test and the transition, short detection and the scheduling of handlers are not modelled; the passing of time is an argument.
- Timing.Wheel.TimeStep: callbacks are an arbitrary table of the registrations they make; allocation of handler records is not modelled.
- Balls: effects of entering and leaving a node on switches and devices, the position number of a ball, and wrap-around of the head counter after 2^32 removals.
- Game: credits and the checks before a game starts (their outcome is an argument, and a player is added without paying), buy-in, timed game, tilt warnings, test mode, adjustments changed during a game, audits, match and high-score entry at the end of a game; a drain is not reported during the bonus or while the game is ending; `serve_ball` is not part of this model.
- Extra balls: lighting and collecting an extra ball only adjust two more counters.
- Devices: global ball counters (`device_update_globals`, `device_add_live`, `device_remove_live`), `device_probe`, virtual balls, hooks that call back into the device, and the pulse itself; readings, locks and refusals are arbitrary.
- Display: what a scroll up reads once it has run past the new page, horizontal scrolls, fades, unrolls, stripes, the segment display, fonts, and other tasks that allocate pages during a transition.
- Printing: parsing of the format string, `%x`, `%w`, `%s`, `%c`; `Printer.Fixup` reads no character beyond the text where the original may look at one and ignore it.
- Scores: subtraction and increment, replay levels, multipliers of awards.
- High scores: credits, audits, the display of the prompts, automatic reset after a number of games, the checksum update after each change; the initials a player would enter are an argument.
- Files: areas lie in the memory in front of the table, and a reset writes an area's defaults and nothing else; the `attr` field is written but never read.
- PIC: the unlock code, the game number test and the timing of the reads.
- Lamp lists: step, build and apply operators, and delays at breaks; the matrix rotated is taken to be the one its test operator reads, as it is for the three matrices the program has.
- Deff scheduling, multiball mode counting, adjustments, audits, attract mode, locale and the configuration tools are not part of this model.
