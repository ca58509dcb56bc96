# Verification of the behavior and animation runtimes

This project models two parts of the repository and proves what they are for.

**The animation player** (`crates/arora-animation`): a playhead that a device clock moves at a speed, through a
window, under a loop mode. `Transport` gives the meaning, one nanosecond of timeline at a time; `Players.Player` is
the object, with the source's `i64` and `i128` arithmetic and its loop over legs; `Playback` tells from the player's
fields alone where it then stands. Beside it, `Curves` compiles and evaluates a track, `Outputs` keeps the engine's
output table and routes, and `Contributions` tells what plays, what the commands leave and what contributes.

**The behavior-tree interpreter** (`crates/arora-behavior-tree`, with the graphs of `crates/arora-behavior`): one graph
under a runner, which an editor edits, a load replaces, runs are spawned onto and halted from, and a tick lowers, ticks
and sweeps.

- `Graphs`, `GraphEdits`, `Edits`: graphs, the tree and cycle checks, diffs and what applying them makes, node by node
  and port by port.
- `Scaffolds`, `ScaffoldEdits`, `Grafts`, `Decorators`, `Respawns`, `RespawnEdits`: what each edit of the one graph does
  to what hangs from the runner.
- `Devices`, `Spawning`, `Ticking`: each operation as a function of the interpreter's state, and its theorems.
- `Operations`, `Loads`, `TickOutcomes`: what each operation is refused for and what it leaves, told from the nodes, the
  runs, the latches and the statuses.
- `Lifetimes`, `Latching`: theorems about every operation, and about every run of operations.
- `Interpreter.BehaviorTreeInterpreter`: the object, each method of which is proved equal to the function of its
  operation.
- `ForgottenLatches`, `AbandonedNodes`, `StrandedRuns`, `UnreadLoads`, `SpawnAndHalt`: particular runs of operations,
  all but the last from the interpreter's start.
- `Control`, `Resumption`: the control nodes, and how a tick goes down a tree of them; `Control.Ticker` is the tree
  ticking, and `Control.TurnOf` what a tick of a node is.
- `RunnerTicks`, `Tickable`: the tree of the interpreter's graph, and what a tick of it does to the runs' decorators.
- `Expressions`, `Sorting`, `Lowering`, `Detached`: the detached calls, lowered once and evaluated on demand;
  `Detached.Scratch` is the reference, recomputing everything a node reads.
- `StatefulNodes`: one detached call that changes parameters in place, which are its state. `NodeCalls`: when a detached
  node calls or fails, and what a call leaves, told from what its cells hold.
- `Sweeps`, `Carrying`, `LatchCells`, `CellValues`: the cells arguments get when a tree is lowered, the state a new tree
  takes over from the one before, and what each cell then holds.
- `Traces`: what a trace reports of each tick, and what a client that hears its reports knows.
- `Sessions`: the whole tick, from the lowering over the tree's own nodes to the traces' reports.
- `Readable`, `References`: graphs and diffs written by names, and read back; and what a file of names describes.
- `Integers`, `Selections`, `Digraphs`, `Speed`: arithmetic, what is left of a list, reachability, and the exact
  distance a speed travels.

An object whose methods update its fields is a class here, an algorithm that loops is a loop, and the marks of the
depth-first sort are arrays. What each method does is a function of the state, and the theorems are about that function.

## Findings

Six properties that the comments or the tests state do not hold of the code as it stands. Each has a concrete input,
four of them as operations from the interpreter's start, and the exact condition under which the property does hold.

1. **A read may answer another graph at the same revision** (`crates/arora-behavior-tree/src/behavior.rs:760-769`). A
   graph spawned again that its run already runs makes an empty diff; the branch that then takes the run's new list of
   detached nodes does not compare the main behavior with what it was. A detached node that the graph leaves out, and
   that the run alone kept from being the main behavior's, becomes the main behavior's. `AbandonedNodes.RevisionMisses`
   gives the three operations from the start, and `AbandonedNodes.ThereIsOne` such nodes. `Spawning.RespawnRevises` and
   `Lifetimes.StepStands` give the condition, both ways: of the operations that succeed, this is the only one. The
   comment that such a graph changes nothing (line 714) does not hold either.
2. **A finished run may be invoked again** (`crates/arora-behavior-tree/src/behavior.rs:1000-1056`). A load is not
   refused for naming a run's decorator as its root or as a child. The decorator is then the main behavior's too, so the
   next load may list it; being set again, it starts afresh, and its latch is not carried over. The run-status decorator
   is documented never to be invoked again (`crates/arora-behavior-tree/src/behavior_tree.rs:762-769`).
   `ForgottenLatches.LatchIsForgotten` gives the operations from the start, over a call that errs, to the tick that
   invokes it again, and `ForgottenLatches.ThereIsOne` such a call.
   `Latching.StepLatches` gives the condition for every operation, both ways, and `Devices.LoadGuarded` when a load
   leaves the decorators to the runner alone.
3. **A refused prune leaves its runs' nodes behind** (`crates/arora-behavior-tree/src/behavior.rs:815-818`,
   `crates/arora-behavior-tree/src/behavior.rs:1217-1219`). The runs are taken out of the lists before the prune that
   may be refused. Nodes that only they held are then the main behavior's, at the same revision.
   `StrandedRuns.HaltStrands` gives the operations from the start. While the runner alone holds the decorators, an
   operation that fails does this exactly when the edit of a prune it makes is not accepted, `Lifetimes.Refused`, which
   is the guard of that branch (`Lifetimes.SoundFails`); in any state, exactly when such a prune would also have taken
   nodes that nothing else holds (`Lifetimes.StepFails`).
4. **Two steps may not be one** (`crates/arora-animation/src/player.rs:361-428`). In a window that is one point, with a
   length that adds nothing to it, a player that starts outside heading away counts as having entered the window after
   two steps, and not after one over the same time. `Transport.TwoStepsEnterWhatOneDoesNot` gives the player,
   `Transport.StepIndependence` the condition, both ways; all else of the playhead, its position included, is always
   the same.
5. **A late player may not play alongside** (`crates/arora-animation/src/player.rs:283-286`). Setting the heading of
   another player that turned is meant for one that is to play alongside it. In a bounce, another that turned and heads
   with its speed all the same, as after two turns in another mode, stops at a bound where the late one turns.
   `Transport.AlongsideTells` gives the condition, both ways, for one that stands in its window.
6. **A loaded node may not be read** (`crates/arora-behavior-tree/src/behavior.rs:1000-1056`). A node the main behavior
   holds together with a run may be loaded, and a read is then said to answer it (lines 1006-1008). It does only if the
   loaded root leads to it; else the run holds it alone. `UnreadLoads.LoadIsUnread` gives the operations from the start,
   for the calls of which `ForgottenLatches.ThereIsOne` gives one, and `Loads.LoadReplaces` the condition, both ways,
   for every node of a load.

Where a comment promises less than the code does, the code is modelled: the speeds that travel exactly are said to reach
2^30 times device time (`crates/arora-animation/src/player.rs:488-494`), and the code is exact below 2^62 times, and
nowhere from there on (`Speed.TravelKeepsItsPromise`).

## Model

| member | source | states |
|---|---|---|
| Speed.Travel | crates/arora-animation/src/player.rs:495-524 | The distance is never negative and below a bound far inside an `i128`; the function is typed so that no intermediate product, shift or sum overflows. |
| Speed.TravelKeepsItsPromise | crates/arora-animation/src/player.rs:488-524 | The distance is the real product of time and speed, rounded half up to whole nanoseconds, if and only if there is nothing to travel or the speed is below 2^62. |
| Speed.AcceptedSpeedsTravelExactly | crates/arora-animation/src/player.rs:488-494 | At every speed up to the largest the engine accepts, the distance is the rounded real product, however long the time. |
| Speed.TravelMonotone | crates/arora-animation/src/player.rs:495-524 | A longer time never travels less far, at any speed, infinities and not-a-numbers included. |
| Transport.NanosecondsCompose | crates/arora-animation/src/player.rs:361-428 | The reference, one nanosecond at a time, over `a` and then `b` is the reference over `a + b`. |
| Transport.WholePeriods | crates/arora-animation/src/player.rs:459-469 | From a bound, taking whole periods out of a travel that loops or turns leaves the playhead as the nanoseconds do. |
| Transport.DegenerateTravel | crates/arora-animation/src/player.rs:361-428 | With a window that is one point and a length that adds nothing, where the travel ends and whether it entered the window, in closed form. |
| Transport.StepIndependence | crates/arora-animation/src/player.rs:361-428 | Travelling `a` then `b` is travelling `a + b` if and only if it is not the one case of a degenerate window found later; all but `entered` is the same in every case. |
| Transport.TwoStepsEnterWhatOneDoesNot | crates/arora-animation/src/player.rs:361-428 | A player for which two steps enter a window that one step over the same time does not. |
| Transport.LandsInClosedForm | crates/arora-animation/src/player.rs:442-487 | In each of the four modes, where a travel of any distance lands from inside the window, given by a remainder: wrapped, reflected, turned once or stopped. |
| Transport.TravelStaysInHull | crates/arora-animation/src/player.rs:358-428 | A playhead never leaves the hull of where it starts, its window, 0 and its length, however far it travels. |
| Transport.LegsLeft | crates/arora-animation/src/player.rs:361-428 | The bound on the turns left that each leg lessens is at most five, however far is left to travel. |
| Transport.PlaysAlongside | crates/arora-animation/src/player.rs:283-291 | A playhead put where another stands with its heading, and counting as turned when that is reversed, is where the other is after any distance, heads as it does and ends when it does. |
| Transport.AlongsideTells | crates/arora-animation/src/player.rs:283-291 | From inside a window of some length the two travel alike over every distance if and only if, in a bounce, the lead has turned exactly when it heads against its speed. |
| Transport.LeadsOutsideDiffer | crates/arora-animation/src/player.rs:358-428 | A lead that entered its window and stands outside it, beside which a late one does not play. |
| Players.AdvancedFits | crates/arora-animation/src/player.rs:361-428 | The position a step ends on fits the 64 bits it is cast to. |
| Players.AdvancedIsValid | crates/arora-animation/src/player.rs:299-328 | A step keeps the clock no further than it has taken the playhead. |
| Players.TwoStepsAreOne | crates/arora-animation/src/player.rs:299-328 | Stepped to two times, a player stands where one step to the later of them leaves it, but for having entered a degenerate window. |
| Players.AnyScheduleAgrees | crates/arora-animation/src/player.rs:299-328 | However often and in whatever order a player is stepped, it stands where one step to the latest of the times leaves it. |
| Players.PlayAtStandsWherePlayWould | crates/arora-animation/src/player.rs:223-232 | Told to play at an instant, a player stands from then on where one that held until then and was started at that instant does. |
| Players.SoughtPlaysOn | crates/arora-animation/src/player.rs:250-257 | Sought while it plays, a player goes on as one started at that position then. |
| Players.SoughtThenStays | crates/arora-animation/src/player.rs:250-257 | Stepped to the instant of the seek, a player is at the position sought, its rules afresh. |
| Players.SoughtHolds | crates/arora-animation/src/player.rs:250-257 | Sought while it does not play, a player is at that position whenever it is stepped. |
| Players.StoppedHolds | crates/arora-animation/src/player.rs:241-248 | Stopped, a player is at the start of its window whenever it is stepped, its rules afresh. |
| Players.HeldThroughout | crates/arora-animation/src/player.rs:299-314 | Not playing, a playhead does not move, through any steps. |
| Players.HeadedAlikeTravelsAlike | crates/arora-animation/src/player.rs:283-291 | A late player sought to where another is and given its heading travels as the other does, whatever the distance. |
| Players.Player.constructor | crates/arora-animation/src/player.rs:133-149 | A new player: at 0, paused, at speed 1, playing once over its whole length. |
| Players.Player.BoundsOfWindow | crates/arora-animation/src/player.rs:294-297 | The ends of the window in order, the length standing for an end that is not set. |
| Players.Player.StopsAtBound | crates/arora-animation/src/player.rs:431-436 | Whether the mode stops the player at the next bound. |
| Players.Player.AtBound | crates/arora-animation/src/player.rs:442-487 | Stops, holds at a point, or takes the playhead past the bound with what the reference has left to travel. |
| Players.Player.TravelLeg | crates/arora-animation/src/player.rs:364-426 | One turn of the loop: what is left to travel from where it ends continues the travel the reference has from where it started. |
| Players.Player.Travel | crates/arora-animation/src/player.rs:361-428 | The loop leaves the playhead where the reference over as many nanoseconds does, changes no other field, and turns at most five times. |
| Players.Player.Advance | crates/arora-animation/src/player.rs:299-328 | Moves the playhead by the distance the clock owes: by the whole travel since the clock was anchored less what it travelled already; a time before the last moves nothing. |
| Players.Player.StartAfresh | crates/arora-animation/src/player.rs:330-337 | No turn taken, the window not entered, not ended, heading with the speed. |
| Players.Player.RestartClock | crates/arora-animation/src/player.rs:339-346 | A running clock is anchored anew; another is left. |
| Players.Player.Play | crates/arora-animation/src/player.rs:212-221 | Steps to the instant, then plays from there with the clock anchored at it. |
| Players.Player.PlayAt | crates/arora-animation/src/player.rs:223-232 | Steps to the instant of the command, then waits for the start. |
| Players.Player.Pause | crates/arora-animation/src/player.rs:234-239 | Steps to the instant, and holds there. |
| Players.Player.Stop | crates/arora-animation/src/player.rs:241-248 | Steps to the instant, and holds at the window's start. |
| Players.Player.Seek | crates/arora-animation/src/player.rs:250-257 | Steps to the instant, and goes on from the position. |
| Players.Player.SetSpeed | crates/arora-animation/src/player.rs:259-268 | Steps to the instant at the old speed, then takes the new one; a sign that differs starts the rules afresh. |
| Players.Player.SetMode | crates/arora-animation/src/player.rs:270-272 | The mode alone changes. |
| Players.Player.SetWindow | crates/arora-animation/src/player.rs:274-281 | Steps to the instant in the old window; the new one is not entered yet. |
| Players.Player.SetReversed | crates/arora-animation/src/player.rs:283-291 | Steps to the instant, then heads as told; reversed, it counts as turned. |
| Playback.MovesWithin | crates/arora-animation/src/player.rs:302-355 | Inside its window, a playing player that owes no more than there is to the end ahead moves by what it owes: to later positions at a speed not below zero, to earlier ones below zero, the other way round when reversed; it ends exactly at that end in a mode that stops there. |
| Playback.LandsWithin | crates/arora-animation/src/player.rs:361-487 | However much it owes, where it is in a window of some length, told from the end behind: held at the end, wrapped by a remainder, or turned back; whether it turned and whether it ended. |
| Playback.HoldsInPoint | crates/arora-animation/src/player.rs:451-454 | In a window of no length it stays, and ends in a mode that stops. |
| Playback.ComesToBounds | crates/arora-animation/src/player.rs:380-390 | Outside its bounds and heading for them it moves by what it owes up to them, and nothing else changes. |
| Playback.ComesToWindow | crates/arora-animation/src/player.rs:400-420 | Heading for a window it has not entered, it moves into it and on inside it, and has entered it exactly once it reached the near end. |
| Playback.PassesWindow | crates/arora-animation/src/player.rs:413-420 | Past a window it has not entered, it moves up to the far end of the whole length, and ends there in a mode that stops. |
| Playback.EndsPastWindow | crates/arora-animation/src/player.rs:390-426 | At that end or past it a mode that stops holds it there. |
| Playback.LoopsPastWindow | crates/arora-animation/src/player.rs:390-473 | A loop starts it again from the other end of the whole length, and it enters the window from there. |
| Playback.TurnsPastWindow | crates/arora-animation/src/player.rs:390-483 | Another mode turns it round there, and it comes back into the window and through it; a bounce ends it at the window's other end. |
| Playback.PastTheEnd | crates/arora-animation/src/player.rs:380-395 | Past the end of a window it entered, as when the length shrank, it goes on as from that end. |
| Playback.StaysPut | crates/arora-animation/src/player.rs:302-321 | Paused, stopped, waiting, ended or stepped to a time gone by, it stays where it is. |
| Playback.OwesTheRest | crates/arora-animation/src/player.rs:320-328 | Stepped to a time on the way, it owes at the later one what is left, and its state, speed, mode and window stay. |
| Playback.PlaysFrom | crates/arora-animation/src/player.rs:212-221 | Played, it is where the clock took it, with fresh rules, and owes from then on. |
| Playback.SpeedFrom | crates/arora-animation/src/player.rs:259-268 | Given a speed, it is where the old one took it and owes what the new one makes of the time since; a sign that differs, and only that, starts its rules afresh. |
| Playback.MovesAtNewSpeed | crates/arora-animation/src/player.rs:259-268 | Inside its window it then moves from there by the new speed's distance, onward or back as that speed and what is left of a turn say. |
| Playback.WindowFrom | crates/arora-animation/src/player.rs:274-281 | Given a window, it stays where it is, has not entered it, and owes what it owed. |
| Playback.ComesToNewWindow | crates/arora-animation/src/player.rs:274-281 | Outside it and heading for it, it goes on over the whole length into the new window. |
| Playback.ReversedFrom | crates/arora-animation/src/player.rs:283-291 | Reversed, it stays where it is, heads the other way and counts as turned. |
| Playback.SeeksFrom | crates/arora-animation/src/player.rs:250-257 | Sought, it is there with fresh rules, and owes from then on if its clock ran. |
| Playback.StopsAtStart | crates/arora-animation/src/player.rs:241-248 | Stopped, it is at the lower of its window's ends, its clock idle. |
| Curves.TimeOrderHolds | crates/arora-animation/src/curve.rs:70-76 | Sorting by time gives all keypoints in time order, and those of each time in the order the track gives them. |
| Curves.CompileSegments | crates/arora-animation/src/curve.rs:86-110 | One segment between any two neighbours of different times and no other, with the curve of its own keypoints. |
| Curves.Compile | crates/arora-animation/src/curve.rs:74-117 | The values are the keypoints' in time order, the kind is the first's, and the segments are those between them. |
| Curves.FitsIsFirst | crates/arora-animation/src/curve.rs:303-309 | A time fits no segment but the first that ends at or after it. |
| Curves.PartitionPoint | crates/arora-animation/src/curve.rs:309 | Halving finds the first segment that ends at or after the time. |
| Curves.Cursor.Locate | crates/arora-animation/src/curve.rs:288-313 | Looking first where the last time fell finds what looking afresh finds, wherever that was, and leaves the cursor where the time fell. |
| Curves.SampleMany | crates/arora-animation/src/curve.rs:150-163 | A batch appends for each time what sampling that time alone gives, in any order of times, and nothing for a track with no keypoint: the value of the keypoint the step rule names, at rest, or, of a number strictly inside its track's span, what the segment that starts there plays. |
| Curves.PlaysAKeypoint | crates/arora-animation/src/curve.rs:282-313 | A track with a keypoint always plays one. |
| Curves.StepRule | crates/arora-animation/src/curve.rs:5-21 | Which keypoint plays: strictly inside, the last strictly before the time; at the start or before, the last of those at the first time; at the end or after, the first of those at the last time; with all at one time, the first before it and the last from it on. |
| Outputs.NewAnimation | crates/arora-animation/src/engine.rs:98-116 | A track plays exactly when no earlier track of the clip has its target. |
| Outputs.PlayedOnce | crates/arora-animation/src/engine.rs:118-121 | What a clip plays has each target once, and each is the first of the clip's tracks with that target. |
| Outputs.FirstsHold | crates/arora-animation/src/engine.rs:646-656 | The table has a place for a target exactly when something written has it. |
| Outputs.FirstsDiffer | crates/arora-animation/src/engine.rs:646-656 | No target has two places in a player's part. |
| Outputs.FirstsWrite | crates/arora-animation/src/engine.rs:453-457 | Each place is of the track that first writes its target. |
| Outputs.Place | crates/arora-animation/src/engine.rs:648-656 | A target is found in the player's part of the table, or is added at its end; its position then has that key. |
| Outputs.RouteSlot | crates/arora-animation/src/engine.rs:635-662 | A player's part of the table follows those before it, and every route of its instances leads into that part, to the key of its track. |
| Outputs.KeysDiffer | crates/arora-animation/src/engine.rs:636-656 | No key repeats within a player's part. |
| Outputs.PartsTile | crates/arora-animation/src/engine.rs:632-664 | The players' parts follow one another, from the table's first position to its last. |
| Outputs.Engine.constructor | crates/arora-animation/src/engine.rs:226-228 | A new engine has no clip and no player, and an aligned table. |
| Outputs.Engine.Restructure | crates/arora-animation/src/engine.rs:629-666 | The table and all routes are aligned with the players as they are; nothing but the routes of a player changes, and the revision goes up by one, wrapping. |
| Outputs.Engine.Load | crates/arora-animation/src/engine.rs:230-237 | A new id and its clip, compiled; the table and the routes stay aligned with no rebuild. |
| Outputs.Engine.Reload | crates/arora-animation/src/engine.rs:239-249 | Replaces the clip of that id, or changes nothing; the table is aligned with the new tracks. |
| Outputs.Engine.Unload | crates/arora-animation/src/engine.rs:251-263 | The clip and every instance of it leave, or nothing changes. |
| Outputs.Engine.CreatePlayer | crates/arora-animation/src/engine.rs:270-284 | A player of a new id with no instance, last. |
| Outputs.Engine.RemovePlayer | crates/arora-animation/src/engine.rs:286-296 | The player and its instances leave; the revision goes up only if one did. |
| Outputs.Engine.AddInstance | crates/arora-animation/src/engine.rs:298-322 | Succeeds exactly when clip and player exist and weight and rate are valid; then the instance is the player's last, and otherwise nothing changes. |
| Outputs.Engine.RemoveInstance | crates/arora-animation/src/engine.rs:324-336 | The instances of that id leave that player alone; the revision goes up only if one did. |
| Outputs.Engine.Outputs | crates/arora-animation/src/engine.rs:482-509 | No route leads out of range; each position takes exactly the samples, in order, of its own player's instances that weigh something, on tracks with the position's key. |
| Contributions.PlaysFirsts | crates/arora-animation/src/engine.rs:118-121 | What a clip plays is, in order, the first track on each target if it has a keypoint, and no other. |
| Contributions.WritesItsClip | crates/arora-animation/src/engine.rs:640-644 | An instance writes what the first loaded clip of its id plays. |
| Contributions.WritesInOrder | crates/arora-animation/src/engine.rs:635-662 | An instance's tracks follow those of the instances before it. |
| Contributions.FirstsKeep | crates/arora-animation/src/engine.rs:646-656 | A part of the table is, in order, the first track on each target. |
| Contributions.PlayersStay | crates/arora-animation/src/engine.rs:286-296 | Removing a player leaves every other, in order. |
| Contributions.InstancesStay | crates/arora-animation/src/engine.rs:324-336 | Removing an instance leaves its player and every other instance of it, in order. |
| Contributions.OtherClipsInstancesStay | crates/arora-animation/src/engine.rs:251-263 | Unloading a clip leaves the instances of every other, in order. |
| Contributions.ClipsStay | crates/arora-animation/src/engine.rs:251-263 | And every other clip, in order. |
| Contributions.OneIsReplaced | crates/arora-animation/src/engine.rs:239-249 | Reloading a clip replaces the first of its id and no other. |
| Contributions.OutputsGather | crates/arora-animation/src/engine.rs:482-509 | The samples on a key are one of each instance that weighs more than nothing and plays a track on it, in the order of the instances, and no others. |
| Expressions.ComputeAgrees | crates/arora-behavior-tree/src/detached.rs:214-243 | An expression gives the same in two memories that agree on the cells it is said to read. |
| Expressions.PassedAgrees | crates/arora-behavior-tree/src/detached.rs:685-720 | So does a whole list of arguments: what a node is passed depends on the cells it reads and no other. |
| Expressions.HoldingIsPassing | crates/arora-behavior-tree/src/detached.rs:1148-1162 | Comparing a cell with a kept argument in place says whether the argument would be passed again, for optional parameters and others. |
| Expressions.CellsAlwaysPass | crates/arora-behavior-tree/src/detached.rs:1037-1053 | Arguments that all read cells never fail to pass. |
| Expressions.ComparesInPlace | crates/arora-behavior-tree/src/detached.rs:1008-1028 | The comparison in place is true exactly when the node would be passed what it was passed last. |
| Expressions.CellIsPassed | crates/arora-behavior-tree/src/behavior_tree.rs:1102-1116 | An argument that reads a cell passes what it holds, as it is to a plain parameter, and to an optional one as an option, an option as it is; a cell that holds nothing passes the absent option or the unit value. |
| Expressions.ComputedIsPassed | crates/arora-behavior-tree/src/detached.rs:685-720 | A computed argument passes its value the same way, and fails when it does. |
| Expressions.WrittenReadsBack | crates/arora-behavior-tree/src/behavior_tree.rs:1118-1132 | What is written back to a cell and read by a parameter of the same kind is what was written. |
| Expressions.ExpressionGives | crates/arora-behavior-tree/src/behavior_tree.rs:1717-1754 | What each expression gives: its literal, what its cell holds, or what a selection makes of that. |
| Expressions.CallGives | crates/arora-behavior-tree/src/behavior_tree.rs:1717-1743 | A call gives what its function gives for what its arguments give, in order, and fails when one of them does. |
| Sorting.OrderedHasNoCycle | crates/arora-behavior-tree/src/detached.rs:1342-1387 | A list of nodes each after what it reads has no cycle in it. |
| Sorting.Sort | crates/arora-behavior-tree/src/detached.rs:1342-1387 | Succeeds exactly when no nodes read each other round; then every node is listed once, each after what it reads; otherwise the nodes it names are such a round. |
| Lowering.LastClaimTells | crates/arora-behavior-tree/src/detached.rs:396-416 | Keeping only a cell's last claim is enough: the new claim clashes with it exactly when it clashes with any before. |
| Lowering.ClaimAll | crates/arora-behavior-tree/src/detached.rs:393-416 | Refused exactly when two nodes write one tree-local cell and one of them is detached. |
| Lowering.ReadsOf | crates/arora-behavior-tree/src/detached.rs:681-721 | The detached nodes that write a cell the node reads, each once in order; refused exactly when it is one of them. |
| Lowering.RoundIsCycle | crates/arora-behavior-tree/src/detached.rs:771-772 | Nodes reading each other's cells round are a cycle of the positions read, and the other way round. |
| Lowering.Lower | crates/arora-behavior-tree/src/detached.rs:681-772 | Lowers exactly what has one writer for each cell a detached node writes and no node that reads itself, directly or round; the reads found are those of the cells. |
| Lowering.SinksOf | crates/arora-behavior-tree/src/detached.rs:774-804 | The sinks are the nodes with a key to publish, in the order the tree lists them. |
| Lowering.PlanOf | crates/arora-behavior-tree/src/detached.rs:774-803 | Parts the nodes with none lost or repeated: every tick those the sinks and observed nodes need, on demand the rest of what the tree reads, unused what neither needs; what every tick needs comes after what it reads. |
| Lowering.LastListedWins | crates/arora-behavior-tree/src/detached.rs:853-885 | Of the nodes bound to a key that did not fail, the key ends with what the one listed last gave. |
| Detached.ScratchIsStable | crates/arora-behavior-tree/src/detached.rs:897-916 | What is found by nodes not yet up to date leaves what the others give, computed from scratch, as it is. |
| Detached.GivesFromScratch | crates/arora-behavior-tree/src/detached.rs:895-958 | With the outside cells as they are, every node brought up to date gives what recomputing it and all it reads gives, or fails as that does, in whatever order nodes were read. |
| Detached.TickGivesFromScratch | crates/arora-behavior-tree/src/detached.rs:834-893 | Over a whole tick up to the sinks' first write, after any reads: every current node gives what recomputing it from the cells the tick began with gives, and was called at most once, only if it would be passed other values than at its last successful call. |
| Detached.LastSinkWins | crates/arora-behavior-tree/src/detached.rs:853-885 | A key ends with what the last sink bound to it that did not fail gave. |
| Detached.OthersStay | crates/arora-behavior-tree/src/detached.rs:853-885 | Publishing changes no cell but the keys of sinks that did not fail. |
| Detached.CallTakesCells | crates/arora-behavior-tree/src/detached.rs:984-1109 | A node whose arguments read cells gives what its function gives for what those hold: what the inputs whose cells they are wrote back, and what else it found. |
| NodeCalls.FailsWithout | crates/arora-behavior-tree/src/detached.rs:984-1062 | A node whose function is unknown fails, and so does one that reads a node that fails. |
| NodeCalls.FailsWithArgument | crates/arora-behavior-tree/src/detached.rs:1037-1053 | One with an argument that fails to compute fails. |
| NodeCalls.CalledOnOtherValues | crates/arora-behavior-tree/src/detached.rs:1008-1108 | A node evaluated is called, once, exactly when what its cells now give it is not what it last passed with success; one not evaluated is not called. |
| Detached.DetachedNodes.constructor | crates/arora-behavior-tree/src/detached.rs:267-289 | No node was brought up to date or called yet, at tick 1. |
| Detached.DetachedNodes.BeginTick | crates/arora-behavior-tree/src/detached.rs:834-837 | No node is up to date at the new tick, and nothing else changes. |
| Detached.DetachedNodes.WriteOutside | crates/arora-behavior-tree/src/behavior_tree.rs:1118-1132 | A cell no detached node writes may be written at any time, by the tree or the store: what the nodes keep of their last calls stays right. |
| Detached.DetachedNodes.CallFunction | crates/arora-behavior-tree/src/detached.rs:1072-1108 | Counts the call whether or not it succeeds; on success the cell and the cache take what it gave and what it was passed. |
| Detached.DetachedNodes.CallIfChanged | crates/arora-behavior-tree/src/detached.rs:1008-1108 | The function is called exactly when the node would be passed other values than last; either way the cell holds what it gives from what it sees. |
| Detached.DetachedNodes.Evaluate | crates/arora-behavior-tree/src/detached.rs:984-1109 | With what it reads up to date, a node gives or fails as recomputing it does, and is called only if it would be passed other values than last. |
| Detached.DetachedNodes.FailWaiting | crates/arora-behavior-tree/src/detached.rs:949-954 | Every node waiting on a failure, and no other, is marked failed for the tick. |
| Detached.DetachedNodes.BringUp | crates/arora-behavior-tree/src/detached.rs:918-958 | The stack-driven walk ends, evaluates each node at most once and only what the one asked for reads, and says whether that failed. |
| Detached.DetachedNodes.BringUpToDate | crates/arora-behavior-tree/src/detached.rs:895-916 | Succeeds exactly when recomputing from scratch does; a node up to date is left alone; each node is evaluated at most once a tick, after what it reads. |
| Detached.DetachedNodes.BringAll | crates/arora-behavior-tree/src/detached.rs:863-869 | Every node asked for ends up to date, a failure of one stopping no other. |
| Detached.DetachedNodes.Pull | crates/arora-behavior-tree/src/detached.rs:839-851 | Brings up to date what a tree node reads, and evaluates nothing those do not need; the first failure stops. |
| Detached.DetachedNodes.Publish | crates/arora-behavior-tree/src/detached.rs:870-885 | Writes the keys of the sinks that did not fail, in order, and no other cell. |
| Detached.DetachedNodes.TickSinks | crates/arora-behavior-tree/src/detached.rs:853-893 | All sinks are up to date before the first key is written, so none sees another's key of this tick; a failure stops none; the observed nodes come after. |
| Digraphs.Reach | crates/arora-behavior-tree/src/behavior.rs:354-367 | What the starts reach holds them, and the children of all it holds. |
| Digraphs.ReachIsLeast | crates/arora-behavior-tree/src/behavior.rs:354-367 | It is the least such set. |
| Digraphs.ReachIsWalks | crates/arora-behavior-tree/src/behavior.rs:354-367 | A node is reached exactly when a walk along children leads to it from a start. |
| Digraphs.FindReach | crates/arora-behavior-tree/src/behavior.rs:356-367 | The worklist finds what is reached, and ends. |
| Graphs.ById | crates/arora-behavior-tree/src/behavior.rs:211-214 | Every id listed is indexed, with a node of that id. |
| Graphs.CheckAcyclic | crates/arora-behavior-tree/src/behavior.rs:292-326 | Accepts exactly when every node under the root names only nodes as children and none is its own descendant. |
| Graphs.IdsCount | crates/arora-behavior-tree/src/behavior.rs:231-234 | As many ids as nodes exactly when none is listed twice. |
| Graphs.CountingTells | crates/arora-behavior-tree/src/behavior.rs:272-276 | Counting the tree and the parentless nodes tells whether they are all the nodes, given one parent each. |
| Graphs.FindParents | crates/arora-behavior-tree/src/behavior.rs:235-257 | Finds a parent for each child exactly when every child is a node, of one parent, and not the root. |
| Graphs.FindLoose | crates/arora-behavior-tree/src/behavior.rs:258-271 | Accepts exactly when every node no node holds, but the root, may run detached, and gives those. |
| Graphs.CheckTree | crates/arora-behavior-tree/src/behavior.rs:224-279 | Accepts exactly one tree under the root with detachable calls beside it, and gives the calls. |
| GraphEdits.WithoutHolds | crates/arora-behavior/src/graph.rs:296-308 | What is removed leaves, and every other node stays but for its bindings that read one removed. |
| GraphEdits.SetAllHolds | crates/arora-behavior/src/graph.rs:310-326 | Every node set stands as set, and every node of another id as it was. |
| GraphEdits.SetAllOrder | crates/arora-behavior/src/graph.rs:310-326 | Set nodes keep their place, and new ones go last in the order set. |
| GraphEdits.ReboundAllHolds | crates/arora-behavior/src/graph.rs:327-335 | Unbinding and binding leave every node its place and id, with the bindings the diff gives it. |
| GraphEdits.Diff | crates/arora-behavior/src/graph.rs:344-412 | The diff is the one described, entry by entry: removals, nodes set whole, single bindings and unbindings, and the root. |
| GraphEdits.DiffBindings | crates/arora-behavior/src/graph.rs:385-403 | Binds exactly the ports bound otherwise or to a removed node, and unbinds exactly those bound no longer that no removal unbinds. |
| GraphEdits.DiffTakesToTarget | crates/arora-behavior/src/graph.rs:344-412 | Applying the diff between two graphs to the one never fails and gives the other's root and its very nodes. |
| GraphEdits.DiffKeepsOrder | crates/arora-behavior/src/graph.rs:344-346 | The graph made lists the nodes it keeps in its own order, and the others after them in the target's. |
| GraphEdits.NoChangeIsSame | crates/arora-behavior/src/graph.rs:348-354 | A diff is empty exactly when root and nodes are the same. |
| GraphEdits.EmptyDiffKeeps | crates/arora-behavior/src/graph.rs:266-342 | Applying the empty diff changes nothing. |
| Edits.ReadsTells | crates/arora-behavior/src/graph.rs:299-309 | A binding reads a removed node through any number of selections, and a value or a key reads none. |
| Edits.EditGives | crates/arora-behavior/src/graph.rs:268-345 | An edit leaves one node for each id it sets or does not remove; each is the last set of its id or as it was without the bindings that read what is removed, with each port the last binding of it gives, none if it is only unbound, and else what it had; the root is the edit's, or as it was unless removed. |
| Edits.EditApplies | crates/arora-behavior/src/graph.rs:276-297 | It fails exactly when it binds a port of a node it does not set and that is not left. |
| Scaffolds.EditShape | crates/arora-behavior/src/graph.rs:266-342 | After any edit the ids are those left and those set, and every node is as set or as left, rebound. |
| Scaffolds.UntouchedStays | crates/arora-behavior-tree/src/behavior.rs:369-400 | A node an edit neither names nor unbinds by a removal stays as it is. |
| Scaffolds.KeptTells | crates/arora-behavior-tree/src/behavior.rs:555-567 | Leaving out two sets of nodes gives one graph exactly when the sets agree on its nodes. |
| Decorators.SparedStay | crates/arora-behavior-tree/src/behavior.rs:369-400 | Nodes that read no port, and that an edit spares, stay as they are, read none after, and do not start afresh. |
| Decorators.EditKeepsDecorators | crates/arora-behavior-tree/src/behavior.rs:599-638 | An edit that spares the decorators leaves them held by the runner alone, and afresh none of them. |
| Decorators.DecoratorsAreApart | crates/arora-behavior-tree/src/behavior.rs:515-545 | While the runner alone holds them, no other start reaches a decorator. |
| Grafts.GraftMakes | crates/arora-behavior-tree/src/behavior.rs:643-693 | Setting a fragment of new nodes and the runner adds the fragment after the nodes there were, and changes the runner alone. |
| Grafts.TreeIsFragment | crates/arora-behavior-tree/src/behavior.rs:653-670 | A tree, the calls beside it and the decorator over it are such a fragment, all of it the run's. |
| Grafts.GraftedReach | crates/arora-behavior-tree/src/behavior.rs:515-545 | Grafted, what was reached still is and no more, and the decorator reaches its fragment. |
| Grafts.GraftKeepsMain | crates/arora-behavior-tree/src/behavior.rs:547-567 | A run grafted beside it leaves the main behavior as it was, node for node in order. |
| Grafts.PrunedWhole | crates/arora-behavior-tree/src/behavior.rs:773-788 | A fragment is pruned whole exactly when no node outside it holds any of it, or the runner. |
| Grafts.GraftThenPrune | crates/arora-behavior-tree/src/behavior.rs:640-708 | Grafting a run and pruning it gives back the very graph if and only if no node but the runner held or read a node of the fragment, or held the runner. |
| ScaffoldEdits.RunnerHoldsAll | crates/arora-behavior-tree/src/behavior.rs:483-494 | The runner holds the main root and every run's decorator, and nothing else. |
| ScaffoldEdits.PruneHangs | crates/arora-behavior-tree/src/behavior.rs:773-792 | An accepted prune leaves the runs left hanging from the runner, and never removes the runner. |
| ScaffoldEdits.LeftNamesNone | crates/arora-behavior-tree/src/behavior.rs:773-788 | No node a prune leaves names one that left. |
| ScaffoldEdits.PruneSpares | crates/arora-behavior-tree/src/behavior.rs:773-792 | It leaves the decorators of the runs left to the runner alone, and afresh none of them. |
| ScaffoldEdits.GraftWorks | crates/arora-behavior-tree/src/behavior.rs:679-692 | An accepted graft hangs the new run, and leaves the main behavior as it was. |
| ScaffoldEdits.ApplyHangs | crates/arora-behavior-tree/src/behavior.rs:976-997 | An accepted edit hangs the main root it gives, or none if it removed the one there was, and all the runs. |
| ScaffoldEdits.ApplySpares | crates/arora-behavior-tree/src/behavior.rs:940-974 | What an edit is refused for is enough: one that is not leaves the decorators to the runner alone, and afresh none of them. |
| ScaffoldEdits.LoadHangs | crates/arora-behavior-tree/src/behavior.rs:1020-1055 | An accepted load hangs its root and all the runs. |
| ScaffoldEdits.LoadTells | crates/arora-behavior-tree/src/behavior.rs:1012-1055 | A load leaves the decorators to the runner alone exactly when its graph names none of them as root or child. |
| Respawns.RunsAlreadyListed | crates/arora-behavior-tree/src/behavior.rs:749-761 | A graph with no difference from the run's own nodes lists nodes as they stand, all of the run's. |
| Respawns.DetachedTells | crates/arora-behavior-tree/src/behavior.rs:523-567 | Another list of detached nodes leaves the main behavior as it is exactly when each node dropped is held otherwise or the main behavior's anyway. |
| Respawns.AbandoningTells | crates/arora-behavior-tree/src/behavior.rs:760-769 | A graph the run already runs leaves the main behavior as it is if and only if the run abandons no node. |
| Respawns.RespawnLetsGo | crates/arora-behavior-tree/src/behavior.rs:767-769 | A run and a graph for which it does not. |
| RespawnEdits.RespawnNames | crates/arora-behavior-tree/src/behavior.rs:731-760 | The diff names nodes of the graph and removes nodes of the run, and no other. |
| RespawnEdits.RespawnTakes | crates/arora-behavior-tree/src/behavior.rs:710-717 | Every node of the graph stands afterwards, as the graph has it. |
| RespawnEdits.RespawnHangs | crates/arora-behavior-tree/src/behavior.rs:761-766 | An accepted respawn leaves everything hanging, the run with its new detached nodes. |
| RespawnEdits.RespawnSpares | crates/arora-behavior-tree/src/behavior.rs:731-766 | It leaves every decorator to the runner alone, and afresh none of them. |
| Devices.FinishedStands | crates/arora-behavior-tree/src/behavior.rs:813-818 | Pruning the finished runs keeps what hangs hanging, and what a read answers unless the revision advances. |
| Devices.ApplyStands | crates/arora-behavior-tree/src/behavior.rs:928-998 | So does an editor's edit. |
| Devices.ApplyGuarded | crates/arora-behavior-tree/src/behavior.rs:940-998 | No edit, refused or not, ends the runner's sole hold on the decorators. |
| Devices.LoadStands | crates/arora-behavior-tree/src/behavior.rs:1000-1056 | A load keeps what hangs hanging, and always advances the revision. |
| Devices.LoadGuarded | crates/arora-behavior-tree/src/behavior.rs:1000-1056 | A load keeps the decorators the runner's alone if and only if its graph names none. |
| Devices.HaltStands | crates/arora-behavior-tree/src/behavior.rs:1200-1222 | A halt keeps what hangs hanging, and what a read answers unless the revision advances. |
| Devices.HaltGuarded | crates/arora-behavior-tree/src/behavior.rs:1200-1222 | It keeps each decorator listed once, and the runner's alone. |
| Devices.GraftingStands | crates/arora-behavior-tree/src/behavior.rs:640-693 | A graft keeps what a read answers, and the revision. |
| Devices.GraftingGuarded | crates/arora-behavior-tree/src/behavior.rs:655-692 | The decorator it brings is the runner's alone, like those there were. |
| Spawning.RunRooted | crates/arora-behavior-tree/src/behavior.rs:1147-1151 | The first live run whose program has that root, if any. |
| Spawning.NothingToChange | crates/arora-behavior-tree/src/behavior.rs:760-761 | The diff is empty exactly when the run already runs the graph. |
| Spawning.RunningAlready | crates/arora-behavior-tree/src/behavior.rs:760-769 | With an empty diff, the run's new detached nodes leave what a read answers if and only if the run abandons no node. |
| Spawning.RespawnRevises | crates/arora-behavior-tree/src/behavior.rs:718-771 | Spawned again with success, a graph leaves what a read answers or advances the revision if and only if it is not a graph the run already runs that abandons a node. |
| Spawning.RespawnGuarded | crates/arora-behavior-tree/src/behavior.rs:731-766 | A graph spawned again leaves the decorators the runner's alone. |
| Spawning.SpawnStands | crates/arora-behavior-tree/src/behavior.rs:1144-1172 | A spawned graph, of a run of its own or of a live one, keeps what hangs hanging, and what a read answers or advances the revision if and only if it lets go of no node. |
| Spawning.SpawnGuarded | crates/arora-behavior-tree/src/behavior.rs:1144-1172 | It leaves the decorators the runner's alone. |
| Spawning.SpawnAdvances | crates/arora-behavior-tree/src/behavior.rs:1144-1172 | A spawn never takes the revision back. |
| Operations.ReadAnswers | crates/arora-behavior-tree/src/behavior.rs:521-567 | A read answers, under the main root, each node that is not the runner's and that no run holds, or that the main root leads to, and no other. |
| Operations.ApplyDoes | crates/arora-behavior-tree/src/behavior.rs:928-998 | An edit that succeeds keeps the runs, takes the edit's main root or loses a removed one, and leaves exactly the nodes and ports the edit gives, the runner over the main root and the runs in order. |
| Operations.ApplyRestarts | crates/arora-behavior-tree/src/behavior.rs:372-400 | It starts afresh the runner, each node it sets or binds or unbinds a port of, and each left that read a removed one, and no other. |
| Operations.ApplyAccepts | crates/arora-behavior-tree/src/behavior.rs:928-998 | It is refused for placing the runner or a decorator, changing a decorator, removing a run's program without setting it again, or for the graph it would make, and for nothing else. |
| Operations.LoadAccepts | crates/arora-behavior-tree/src/behavior.rs:1000-1030 | A load is refused for an id listed twice, for naming the runner's node or a run's that the main root does not lead to, or for the graph it would make, and for nothing else. |
| Operations.SpawnAccepts | crates/arora-behavior-tree/src/behavior.rs:1093-1143 | A graph is spawned only if it is a tree with childless calls to module functions beside it, calls no function of the interpreter, reads only itself and builds, and is refused for nothing else of its own. |
| Operations.EditAccepts | crates/arora-behavior-tree/src/behavior.rs:615-636 | An edit is accepted exactly when it applies, keeps what hangs from the runner acyclic, binds no return to a selection, and lowers. |
| Operations.HaltDoes | crates/arora-behavior-tree/src/behavior.rs:1200-1222 | A halt takes out the first live run of the task, with the nodes it alone leads to; every other node stays as it was but for bindings that read those; without such a run nothing changes. |
| Operations.FinishedDoes | crates/arora-behavior-tree/src/behavior.rs:776-818 | The finished runs leave together, each with what nothing else leads to, and everything else stays as it was. |
| Operations.SpawnDoes | crates/arora-behavior-tree/src/behavior.rs:1065-1091 | A call spawned is a new last run: a run-call node with the call and a run-status decorator over it with its latch empty, beside the nodes there were. |
| Operations.SpawnGraphDoes | crates/arora-behavior-tree/src/behavior.rs:1093-1173 | A graph spawned runs as the program of the first live run of its root, whose own nodes it does not list leave, or else as a new last run of new nodes; either way its nodes stand as given and every other stays as it was. |
| Loads.LoadReplaces | crates/arora-behavior-tree/src/behavior.rs:1000-1056 | After a load that succeeds a read is rooted where the loaded graph is; it has a loaded node exactly when the loaded root leads to it or no run holds it, and any other node only if a run holds it and the loaded root leads to it. |
| Loads.LoadedIsRead | crates/arora-behavior-tree/src/behavior.rs:1000-1056 | If no run holds a loaded node or one under the loaded root, a read answers the loaded graph. |
| Loads.LoadedAlone | crates/arora-behavior-tree/src/behavior.rs:1000-1056 | With no run it always does. |
| Ticking.SweptAlike | crates/arora-behavior-tree/src/behavior.rs:820-837 | A sweep loses and repeats no run, and no decorator is listed twice if none was. |
| Ticking.TickStands | crates/arora-behavior-tree/src/behavior.rs:841-926 | A tick keeps what hangs hanging, and what a read answers unless the revision advances. |
| Ticking.TickGuarded | crates/arora-behavior-tree/src/behavior.rs:841-926 | A tick keeps the decorators the runner's alone. |
| Ticking.TickSweeps | crates/arora-behavior-tree/src/behavior.rs:820-925 | A tick that succeeds finishes, of the live runs, exactly those whose published status is success or failure; the others stay live; both keep their order, and the next tick lowers exactly if one finished. |
| TickOutcomes.ComesToTree | crates/arora-behavior-tree/src/behavior.rs:841-892 | A tick comes to its tree exactly when what it must write could be written and, if the graph changed, the finished runs could be pruned and the graph lowers; a new lowering has each run's decorator, with its former latch unless it starts afresh. |
| TickOutcomes.TickDoes | crates/arora-behavior-tree/src/behavior.rs:894-925 | The tree ticked, each decorator reached and not latched has published what its program answered, an error as a failure, and latched an end; every other is as it was; the runs are swept unless the tree failed, and the tick succeeds exactly when it did not and the reports were written. |
| TickOutcomes.TickStops | crates/arora-behavior-tree/src/behavior.rs:841-870 | A tick that could not write, prune or lower fails, and changes nothing after that. |
| Lifetimes.StepStands | crates/arora-behavior-tree/src/behavior.rs:840-1223 | Every operation keeps what hangs hanging; one that succeeds leaves what a read answers or advances the revision if and only if it is not a graph spawned again that abandons a node. |
| Lifetimes.StepFails | crates/arora-behavior-tree/src/behavior.rs:773-818 | Every operation that fails leaves what a read answers, at the same revision, if and only if no prune it makes has its edit refused and held nodes that nothing left holds. |
| Lifetimes.SoundFails | crates/arora-behavior-tree/src/behavior.rs:1214-1222 | While the runner alone holds the decorators, an operation that fails leaves what a read answers if and only if the edit of no prune it makes is refused: by the refusal's own guard, which can be looked at before the call. |
| Lifetimes.StepGuarded | crates/arora-behavior-tree/src/behavior.rs:840-1223 | Every operation but a load that names a decorator keeps the decorators the runner's alone. |
| Lifetimes.InitialStands | crates/arora-behavior-tree/src/behavior.rs:415-447 | The interpreter starts with a runner that hangs, and no decorator. |
| Lifetimes.AlwaysStands | crates/arora-behavior-tree/src/behavior.rs:840-1223 | Through every run of operations, whether they succeed or not, what hangs hangs. |
| Lifetimes.RevisionTells | crates/arora-behavior-tree/src/behavior.rs:569-576 | Through any operations that succeed and abandon no node, a read that finds the same revision finds the same graph. |
| Lifetimes.AlwaysSound | crates/arora-behavior-tree/src/behavior.rs:840-1223 | Through any operations of which no load names a decorator, the runner alone holds the decorators. |
| Latching.DiffRenames | crates/arora-behavior/src/graph.rs:355-412 | A diff names exactly the nodes listed otherwise, of those that read no port. |
| Latching.EditLatched | crates/arora-behavior-tree/src/behavior.rs:615-638 | An edit loses exactly the latches of the ended decorators it names. |
| Latching.LoadLatched | crates/arora-behavior-tree/src/behavior.rs:1000-1056 | A load loses exactly the latches of the ended decorators its graph lists. |
| Latching.RespawnLatched | crates/arora-behavior-tree/src/behavior.rs:718-771 | A graph spawned again loses exactly the latches of the ended decorators it lists otherwise than they are. |
| Latching.TickLatched | crates/arora-behavior-tree/src/behavior_tree.rs:761-808 | A tick keeps a latch, does not invoke the program of an ended run, and does not rewrite its status. |
| Latching.StepLatches | crates/arora-behavior-tree/src/behavior.rs:840-1223 | Every operation keeps the latch of an ended run that stays if and only if it is no load that succeeds and lists the decorator, and no spawn that succeeds and lists it otherwise than it is. |
| Latching.StepPublishes | crates/arora-behavior-tree/src/behavior_tree.rs:761-808 | While its latch holds, no operation rewrites an ended run's status and no tick invokes its program. |
| Latching.StaysLatched | crates/arora-behavior-tree/src/behavior_tree.rs:761-808 | Once a run wrote a terminal status, through any operations that do not relist its decorator, no tick invokes its program and its status stays. |
| Latching.AfreshIsInvoked | crates/arora-behavior-tree/src/behavior.rs:853-888 | An ended decorator set to start afresh is invoked by the tick that lowers the graph exactly if the tick reaches it. |
| Latching.InitialLatched | crates/arora-behavior-tree/src/behavior.rs:415-447 | The interpreter starts latched. |
| Latching.AlwaysLatched | crates/arora-behavior-tree/src/behavior.rs:840-1223 | Through any operations that relist no decorator, every run's decorator is latched and is a run-status node over a program, those spawned on the way included. |
| Latching.GuardedRelistsNone | crates/arora-behavior-tree/src/behavior.rs:840-1223 | While the runner alone holds the decorators, no operation that succeeds relists one. |
| ForgottenLatches.LatchIsForgotten | crates/arora-behavior-tree/src/behavior.rs:1000-1056 | From the start: a call spawned, which errs when ticked, so that its run ends in failure; its decorator loaded as root and then listed by the next load; the tick that reaches it invokes the ended program again. |
| ForgottenLatches.ThereIsOne | crates/arora-behavior-tree/src/behavior.rs:1000-1056 | There are such a device, run and tick. |
| AbandonedNodes.RevisionMisses | crates/arora-behavior-tree/src/behavior.rs:760-769 | From the start: a graph spawned with a call beside it, the call placed under a loose node, the graph spawned again without it; all succeed, and the last changes what a read answers at the same revision. |
| AbandonedNodes.ThereIsOne | crates/arora-behavior-tree/src/behavior.rs:760-769 | There are such a device, run and nodes. |
| StrandedRuns.HaltStrands | crates/arora-behavior-tree/src/behavior.rs:1200-1222 | From the start: a call spawned, two nodes edited in that read it one through the other, the run halted; the halt fails, its run is gone from the list, and what a read answers changed at the same revision. |
| StrandedRuns.ThereIsOne | crates/arora-behavior-tree/src/behavior.rs:1200-1222 | There are such a device and such nodes. |
| SpawnAndHalt.GraftPruned | crates/arora-behavior-tree/src/behavior.rs:640-792 | Grafting and pruning a run gives back the graph but for the runner, set over the runs there were, exactly when the fragment is alone. |
| SpawnAndHalt.SpawnThenHalt | crates/arora-behavior-tree/src/behavior.rs:1200-1222 | A run spawned and halted leaves the lists as they were, and the graph but for the runner exactly when no other node holds or reads one of the run's or holds the runner; then a read answers what it did. |
| UnreadLoads.LoadIsUnread | crates/arora-behavior-tree/src/behavior.rs:1000-1056 | From the start: operations after which a load succeeds and a read does not answer a node it loaded. |
| Interpreter.NodesOf | crates/arora-behavior-tree/src/behavior.rs:515-537 | The nodes of all runs, found one by one. |
| Interpreter.HeldBeside | crates/arora-behavior-tree/src/behavior.rs:695-708 | What is held besides the leaving nodes, by a worklist. |
| Interpreter.NotMainOf | crates/arora-behavior-tree/src/behavior.rs:523-545 | The runner and what only runs hold. |
| Interpreter.MainGraphOf | crates/arora-behavior-tree/src/behavior.rs:547-567 | The main behavior, in the scaffold's order. |
| Interpreter.Rooted | crates/arora-behavior-tree/src/behavior.rs:1147-1151 | The loop finds the first run whose program has that root. |
| Interpreter.Position | crates/arora-behavior-tree/src/behavior.rs:1214 | The loop finds the first live run of that id. |
| Interpreter.Partition | crates/arora-behavior-tree/src/behavior.rs:829-836 | The runs whose status is not terminal and those whose status is, each in order. |
| Interpreter.BehaviorTreeInterpreter.constructor | crates/arora-behavior-tree/src/behavior.rs:415-447 | The state every run of operations starts from. |
| Interpreter.BehaviorTreeInterpreter.Read | crates/arora-behavior-tree/src/behavior.rs:1058-1063 | The main behavior and its revision. |
| Interpreter.BehaviorTreeInterpreter.ReviseSince | crates/arora-behavior-tree/src/behavior.rs:569-576 | The revision goes up by one exactly when a read would answer another graph. |
| Interpreter.BehaviorTreeInterpreter.Edit | crates/arora-behavior-tree/src/behavior.rs:599-638 | An edit applies whole or changes nothing; it is accepted exactly when it applies, leaves the runner acyclic over nodes, and lowers. |
| Interpreter.BehaviorTreeInterpreter.Prune | crates/arora-behavior-tree/src/behavior.rs:773-792 | Does what `Devices.PruneResult` does: what the runs alone held leaves, or nothing changes. |
| Interpreter.BehaviorTreeInterpreter.PruneFinished | crates/arora-behavior-tree/src/behavior.rs:813-818 | Does to the state what `Devices.FinishedResult` does, which the theorems above are about. |
| Interpreter.BehaviorTreeInterpreter.Apply | crates/arora-behavior-tree/src/behavior.rs:928-998 | Does what `Devices.ApplyResult` does; what a read answers is another graph only at another revision. |
| Interpreter.BehaviorTreeInterpreter.MayLoad | crates/arora-behavior-tree/src/behavior.rs:1009-1019 | A graph may be loaded exactly when it lists no node twice and no node only the scaffold or a run holds. |
| Interpreter.BehaviorTreeInterpreter.LoadRemoval | crates/arora-behavior-tree/src/behavior.rs:1020-1042 | What leaves is what no run holds once the new nodes are set. |
| Interpreter.BehaviorTreeInterpreter.Load | crates/arora-behavior-tree/src/behavior.rs:1000-1056 | Does what `Devices.LoadResult` does; the revision always advances; with no run, a read then answers the loaded graph. |
| Interpreter.BehaviorTreeInterpreter.Halt | crates/arora-behavior-tree/src/behavior.rs:1200-1222 | Does what `Devices.HaltResult` does; what a read answers is another graph only at another revision. |
| Interpreter.BehaviorTreeInterpreter.Graft | crates/arora-behavior-tree/src/behavior.rs:640-693 | The run is listed exactly if the edit is accepted, under the runner. |
| Interpreter.BehaviorTreeInterpreter.Spawn | crates/arora-behavior-tree/src/behavior.rs:1065-1091 | Does what `Devices.SpawnResult` does; what a read answers is another graph only at another revision. |
| Interpreter.BehaviorTreeInterpreter.OwnOf | crates/arora-behavior-tree/src/behavior.rs:724-759 | The nodes only the run holds, and whether the graph names only those and new ones. |
| Interpreter.BehaviorTreeInterpreter.Respawn | crates/arora-behavior-tree/src/behavior.rs:710-771 | Makes the diff from the run's own nodes, and does what `Spawning.RespawnResult` does with it. |
| Interpreter.BehaviorTreeInterpreter.MaySpawn | crates/arora-behavior-tree/src/behavior.rs:1107-1143 | Whether a graph may be spawned at all. |
| Interpreter.BehaviorTreeInterpreter.SpawnGraph | crates/arora-behavior-tree/src/behavior.rs:1093-1173 | A run of its own or its run's program from now on; what a read answers is another graph only at another revision, if and only if no node is lost. |
| Interpreter.BehaviorTreeInterpreter.Lower | crates/arora-behavior-tree/src/behavior.rs:853-892 | A tick's lowering: the finished runs leave, the new tree takes over the latches of the decorators that do not start afresh, the revision is written again; the restarted nodes are those started afresh that both trees hold, the runner aside. |
| Interpreter.BehaviorTreeInterpreter.Replace | crates/arora-behavior-tree/src/behavior.rs:866-888 | The new tree: which latches it takes over, which nodes it has, and which of them restart. |
| Interpreter.BehaviorTreeInterpreter.Sweep | crates/arora-behavior-tree/src/behavior.rs:820-837 | The live runs whose status is terminal are finished, in order, and the next tick lowers if there was one: those whose published status is success or failure, and no other. |
| Interpreter.BehaviorTreeInterpreter.TickTree | crates/arora-behavior-tree/src/behavior_tree.rs:761-808 | What given answers of the decorators make of their latches and keys: each one reached that is not latched mirrors its program, and latches an end. `RunnerTicks.TreeIsTicked` says that a tick of the tree itself does this. |
| Interpreter.BehaviorTreeInterpreter.Tick | crates/arora-behavior-tree/src/behavior.rs:841-926 | Does what `Ticking.TickResult` does; one that succeeds has written the revision a read answers; of the live runs exactly those whose published status is an end are finished, in order. |
| Control.Ticker.TickNode | crates/arora-behavior-tree/src/behavior_tree.rs:906-934 | A node ticks what it reads and then itself, all under it as the reference turn does, and is logged with what it answered, an error too. |
| Control.Ticker.TickOwn | crates/arora-behavior-tree/src/behavior_tree.rs:599-880 | Each kind of node ticks as the reference says of its kind. |
| Control.Ticker.TickSequence | crates/arora-behavior-tree/src/behavior_tree.rs:675-691 | Ticks children as long as they succeed, and answers as the last one ticked; with none, succeeds. |
| Control.Ticker.TickFallback | crates/arora-behavior-tree/src/behavior_tree.rs:692-712 | Ticks children as long as they fail, and answers as the last one ticked; with none, succeeds. |
| Control.Ticker.TickParallel | crates/arora-behavior-tree/src/behavior_tree.rs:713-737 | Ticks children until one errs, and answers of them together. |
| Control.Ticker.TickResuming | crates/arora-behavior-tree/src/behavior_tree.rs:809-841 | Resumes at its index, and keeps where it is for the next tick, unless a child errs. |
| Control.Ticker.TickOnward | crates/arora-behavior-tree/src/behavior_tree.rs:823-835 | Ticks children from an index on as long as they succeed, counting in 16 bits. |
| Control.Ticker.TickRunStatus | crates/arora-behavior-tree/src/behavior_tree.rs:761-808 | Answers its latch, or ticks its program, mirrors what it answers and latches an end, an error as a failure. |
| Resumption.UnreadErrs | crates/arora-behavior-tree/src/behavior_tree.rs:905-917 | A node that cannot read what it reads errs and ticks nothing. |
| Resumption.ReadIsLogged | crates/arora-behavior-tree/src/behavior_tree.rs:905-934 | One that can is logged once, after all it ticks, with what it answers. |
| Resumption.PlainTells | crates/arora-behavior-tree/src/behavior_tree.rs:672-674 | A node that succeeds, fails or stays running answers so, ticks nothing and leaves every cell; a leaf leaves the control nodes' cells. |
| Resumption.StatusTells | crates/arora-behavior-tree/src/behavior_tree.rs:761-808 | A decorator that holds an end answers it and ticks nothing; another answers as its program, publishes it, an error as a failure, and latches an end. |
| Resumption.RoundFollows | crates/arora-behavior-tree/src/behavior_tree.rs:675-737 | Children are ticked in order, each finding the cells as the one before left them, and the log is theirs one after the other. |
| Resumption.SequenceTells | crates/arora-behavior-tree/src/behavior_tree.rs:675-691 | A sequence succeeds if and only if every child is ticked and succeeds; otherwise it answers as the one child that did not, after children that all did. |
| Resumption.FallbackTells | crates/arora-behavior-tree/src/behavior_tree.rs:692-712 | A fallback fails if and only if it has children and every one is ticked and fails; otherwise it answers as the one that did not, after children that all did. |
| Resumption.ParallelTells | crates/arora-behavior-tree/src/behavior_tree.rs:713-737 | A parallel node errs if and only if a child does, and only then leaves children unticked; otherwise it succeeds exactly when all do and fails exactly when one does. |
| Resumption.ResumesAt | crates/arora-behavior-tree/src/behavior_tree.rs:809-841 | A resuming sequence ends a tick at the child that runs, at the first after an end, and where it was after an error; it succeeds only past its last child. |
| Resumption.RunsOnward | crates/arora-behavior-tree/src/behavior_tree.rs:809-841 | Through ticks that answer that it runs, each begins at the child the one before stopped at. |
| Resumption.NeverTwice | crates/arora-behavior-tree/src/behavior_tree.rs:809-841 | A child that succeeded is not ticked again while the sequence runs. |
| Resumption.PassSucceeds | crates/arora-behavior-tree/src/behavior_tree.rs:809-841 | Over any ticks that run and then one that succeeds, every child from where the sequence was succeeds at exactly one of them. |
| RunnerTicks.TurnMet | crates/arora-behavior-tree/src/behavior_tree.rs:761-808 | Whatever a tree's control nodes and leaves do, a tick leaves every decorator as its log tells: mirrored and latched if it was reached and not latched, else as it was. |
| RunnerTicks.TreeIsTicked | crates/arora-behavior-tree/src/behavior.rs:896-904 | A tick of the tree, node by node, leaves the device as the device's tick says for the outcomes the log tells. |
| RunnerTicks.RunnerReaches | crates/arora-behavior-tree/src/behavior_tree.rs:713-737 | The runner reaches a run's decorator if and only if no child before it erred, and its program is invoked if and only if it is reached and has not ended. |
| RunnerTicks.ErrsOnce | crates/arora-behavior-tree/src/behavior_tree.rs:761-808 | A program that errs ends its run once: the error goes up, the run has failed, and from then on the decorator answers that without ticking the program. |
| RunnerTicks.Register | crates/arora-behavior-tree/src/behavior_tree.rs:501-571 | An acyclic graph is registered as a tree, each node with its children in order; the recursion ends. |
| RunnerTicks.UnrolledIsSound | crates/arora-behavior-tree/src/behavior_tree.rs:501-571 | In the tree of an acyclic graph no node stands under itself, and the decorators are run-status nodes over their programs. |
| RunnerTicks.RunnerUnrolls | crates/arora-behavior-tree/src/behavior.rs:483-494 | The runner's tree is, in parallel, the main behavior and then each run's decorator, live ones before finished ones. |
| Tickable.StepHasTree | crates/arora-behavior-tree/src/behavior.rs:840-1223 | Every operation, one that fails too, leaves what hangs from the runner acyclic and lowered unless it changed. |
| Tickable.InitialCanTick | crates/arora-behavior-tree/src/behavior.rs:415-447 | The interpreter starts so. |
| Tickable.AlwaysCanTick | crates/arora-behavior-tree/src/behavior.rs:840-1223 | Through any operations whose loads name no run's decorator, the tree can be registered and ticked: acyclic, every run's decorator a run-status node over a program that reads no port, and the runner's alone. |
| Sessions.RecordTells | crates/arora-behavior-tree/src/trace.rs:243-247 | What is recorded of a node is what it last answered at the tick, an error as a failure, and nothing of one not reached. |
| Sessions.TreeIsSound | crates/arora-behavior-tree/src/behavior_tree.rs:501-571 | Any tree of a reachable device's graph can be ticked over its decorators. |
| Sessions.RunsStandAlone | crates/arora-behavior-tree/src/behavior.rs:483-494 | A run's decorator stands in the tree under the runner alone. |
| Sessions.Session.Lower | crates/arora-behavior-tree/src/behavior.rs:862-888 | The tree is registered and handed to the traces: the nodes handed over are those started afresh that both trees hold, the runner aside. |
| Sessions.Session.TickTree | crates/arora-behavior-tree/src/behavior.rs:896-904 | The tree ticks node by node, and the device takes what its log tells. |
| Sessions.Session.Begin | crates/arora-behavior-tree/src/behavior.rs:841-892 | What comes before the tree: nothing of it is done unless the halted runs' statuses and the revision are written. |
| Sessions.Session.Report | crates/arora-behavior-tree/src/behavior.rs:906-917 | Each trace has its turn at what the tree did, a failed tick's too. |
| Sessions.Session.Through | crates/arora-behavior-tree/src/behavior.rs:896-925 | After the tree ticked, the traces report; the runs that ended are swept only if the tick succeeded. |
| Sessions.Session.Tick | crates/arora-behavior-tree/src/behavior.rs:841-926 | A whole tick does what `Ticking.TickResult` does for what the tree's own nodes answered, keeps the device one that can be ticked, and gives each trace its turn. |
| Sessions.ClientsKnow | crates/arora-behavior-tree/src/trace.rs:230-304 | A client whose trace is due and whose report is written knows of every node what it answered at the tick. |
| Sessions.ClientsKnowAnswers | crates/arora-behavior-tree/src/trace.rs:230-304 | Its status of a node is succeeded, running or failed as the node last answered at the tick, an error being a failure, and none of a node not reached. |
| Sessions.ClientsHearRestarts | crates/arora-behavior-tree/src/trace.rs:210-228 | It was told every node restarted since it last heard, and no other. |
| Sessions.ClientsSeeRuns | crates/arora-behavior-tree/src/trace.rs:230-304 | Of a run whose decorator was ticked, it knows the status the run's key has. |
| StatefulNodes.Collect | crates/arora-behavior-tree/src/detached.rs:1073-1097 | A port takes what is last reported of it, the return what was returned, and a parameter not reported what it was passed. |
| StatefulNodes.WritingTwice | crates/arora-behavior-tree/src/detached.rs:1122-1133 | Written again, the ports are as they were, though some share a cell. |
| StatefulNodes.OthersMayWrite | crates/arora-behavior-tree/src/detached.rs:1119-1133 | Whatever else is written, what the node keeps of its last call stays right: where others write the ports, they are written again. |
| StatefulNodes.Evaluator.Load | crates/arora-behavior-tree/src/detached.rs:999-1007 | Each parameter kept in a key is loaded from it. |
| StatefulNodes.Evaluator.Write | crates/arora-behavior-tree/src/detached.rs:1099-1104 | The ports are written, in order. |
| StatefulNodes.Evaluator.Publish | crates/arora-behavior-tree/src/detached.rs:870-885 | The keys are written, in order. |
| StatefulNodes.Evaluator.Reuse | crates/arora-behavior-tree/src/detached.rs:1122-1133 | The ports hold the outputs of the last call, whether or not they had to be written again. |
| StatefulNodes.Evaluator.CallAnew | crates/arora-behavior-tree/src/detached.rs:1062-1108 | A call counts whether or not it succeeds; one that succeeds writes the ports and is kept, one that fails changes nothing else. |
| StatefulNodes.Evaluator.Evaluate | crates/arora-behavior-tree/src/detached.rs:984-1109 | An evaluation leaves every cell as loading, reading and calling anew would, fails when that would, and calls exactly when other values would be passed than at the last successful call. |
| StatefulNodes.Evaluator.Tick | crates/arora-behavior-tree/src/detached.rs:853-885 | Evaluated and published, a node would be called again exactly when its state moved. |
| StatefulNodes.CalledUntilSettled | crates/arora-behavior-tree/src/detached.rs:984-1109 | Left alone, a node is passed again what it was passed if and only if the call left each parameter as it was passed. |
| NodeCalls.OutputTakes | crates/arora-behavior-tree/src/detached.rs:1073-1097 | An output takes the last value reported for its port; else, for the return, what was returned; else what its parameter was passed. |
| NodeCalls.LoadsFromKey | crates/arora-behavior-tree/src/detached.rs:999-1007 | A parameter kept in a key finds what the key holds; every other port's cell is as it was. |
| NodeCalls.WrittenAndPublished | crates/arora-behavior-tree/src/detached.rs:870-885 | After a tick that succeeds, each port and its key hold what its output took, as it is written back. |
| Traces.Collect | crates/arora-behavior-tree/src/trace.rs:243-247 | What a tick recorded, the last record of a node standing. |
| Traces.Changes | crates/arora-behavior-tree/src/trace.rs:417-428 | Exactly the nodes whose entries differ, one that either lacks included. |
| Traces.Differs | crates/arora-behavior-tree/src/trace.rs:430-444 | Whether the status differs from what was reported, which it becomes, an absent one being forgotten. |
| Traces.Drain | crates/arora-behavior-tree/src/trace.rs:364-377 | States each changed node once, only if its entry differs from what was reported, and leaves reported what is. |
| Traces.ToldIsNow | crates/arora-behavior-tree/src/trace.rs:346-377 | A client that holds what was reported, told what changed, holds what is. |
| Traces.RestartFollows | crates/arora-behavior-tree/src/trace.rs:210-228 | Nodes that restart are forgotten and named, so the client that forgets them follows still. |
| Traces.MakeReport | crates/arora-behavior-tree/src/trace.rs:346-414 | The report states what changed since the last, names the restarted nodes and the tick it follows; the trace is left with what is. |
| Traces.ReportTells | crates/arora-behavior-tree/src/trace.rs:346-414 | A client that hears the report knows every node's status and activity and the revision, and every entry tells it something it did not know. |
| Traces.SilenceTells | crates/arora-behavior-tree/src/trace.rs:283-285 | When a report would state nothing, the client knows the tick already. |
| Traces.Publish | crates/arora-behavior-tree/src/trace.rs:279-296 | Written, the report is heard and the trace has started; refused, before or after a first key took it, the trace is as new. |
| Traces.TakeTurn | crates/arora-behavior-tree/src/trace.rs:264-297 | One trace's turn, whatever becomes of its report: it comes at every tick without an interval, a clock or a former report, and else once the clock is an interval past that report; if the report is written its client then knows the tick, and out of turn it hears nothing; one whose report was not written starts over. |
| Traces.Traces.Start | crates/arora-behavior-tree/src/trace.rs:145-161 | A new trace, nothing reported, the others as they were. |
| Traces.Traces.Halt | crates/arora-behavior-tree/src/trace.rs:178-193 | The first trace of that id leaves, the others go on in step with their clients; no such trace, nothing changes. |
| Traces.Traces.Restart | crates/arora-behavior-tree/src/trace.rs:210-228 | Every trace that reported takes the restart, and stays in step with its client. |
| Traces.Traces.Report | crates/arora-behavior-tree/src/trace.rs:230-304 | Every trace whose turn it is, by its interval and the clock, is either up to date with its client, who heard at most one report telling exactly what it did not know, or starts over; it reported at the tick's clock exactly if its report was written; out of turn a client hears nothing. |
| Sweeps.SelectedReads | crates/arora-behavior-tree/src/behavior_tree.rs:338-345 | Through any nesting of selections, the argument read is the one the innermost source reads. |
| Sweeps.ChainIsOne | crates/arora-behavior-tree/src/behavior_tree.rs:1309-1312 | The chain of reads from an argument is one: it ends at one argument or nowhere. |
| Sweeps.EndsOrNot | crates/arora-behavior-tree/src/behavior_tree.rs:1373-1384 | A chain of reads ends if and only if it neither dangles at an argument there is not nor loops. |
| Sweeps.VariableCellOf | crates/arora-behavior-tree/src/behavior_tree.rs:1682-1705 | The variable's one cell: the store's slot if its name resolves, else one of its own, made at its first reference and no other. |
| Sweeps.BindVariables | crates/arora-behavior-tree/src/behavior_tree.rs:1656-1680 | Every variable a call reads has its cell afterwards, and those there were keep theirs. |
| Sweeps.SetUp | crates/arora-behavior-tree/src/behavior_tree.rs:1601-1654 | Succeeds exactly when the argument read, if any, has its cell; the argument's cell is then that of the end of its chain. |
| Sweeps.NoneResolved | crates/arora-behavior-tree/src/behavior_tree.rs:1373-1384 | When a sweep sets up none, no argument left has a chain that ends. |
| Sweeps.SweepOnce | crates/arora-behavior-tree/src/behavior_tree.rs:1313-1372 | One sweep leaves no more than before, and as many only if each waits for one not set up. |
| Sweeps.Sweep | crates/arora-behavior-tree/src/behavior_tree.rs:1309-1386 | Ends; refuses exactly when some chain of reads does not end; otherwise every argument has the cell its chain ends at, starting as it is to start, whatever order they were listed in. |
| Sweeps.SharedByEnd | crates/arora-behavior-tree/src/behavior_tree.rs:1309-1312 | Two arguments share a cell if and only if their chains end at one holder; the order has no part in it. |
| CellValues.CellBegins | crates/arora-behavior-tree/src/behavior_tree.rs:1601-1654 | Set up, an argument that reads another has that one's cell; else its cell begins as its literal, its id, nothing for a call or a variable of the tree, the store's slot of a variable there, or is the cell it was built with. |
| CellValues.OwnCellsDiffer | crates/arora-behavior-tree/src/behavior_tree.rs:1309-1312 | An argument that is a literal, an id or a call shares its cell with no other that reads none. |
| Carrying.TakeLocal | crates/arora-behavior-tree/src/behavior_tree.rs:347-353 | Two tree-local cells exchange what they hold. |
| Carrying.CarryArguments | crates/arora-behavior-tree/src/behavior_tree.rs:271-306 | The cells of the arguments carried are exchanged with the previous tree's, each once; the variables the nodes that go on read are found. |
| Carrying.CarryVariables | crates/arora-behavior-tree/src/behavior_tree.rs:307-312 | So are the cells of those variables that both trees keep to themselves. |
| Carrying.KeepState | crates/arora-behavior-tree/src/behavior_tree.rs:263-313 | Each cell of the arguments and variables carried takes what its partner held and gives what it held, and every other cell of both trees keeps what it holds. |
| CellValues.ArgumentIsCarried | crates/arora-behavior-tree/src/behavior_tree.rs:269-306 | The cell of a literal, an id or a call of a node that goes on holds what the previous tree's cell of it held, and that one what it held; of a node that starts afresh it is as it was. |
| CellValues.VariableIsCarried | crates/arora-behavior-tree/src/behavior_tree.rs:307-312 | So it is of a variable both trees have if a node that goes on reads it, at any depth; else it keeps what it holds. |
| LatchCells.StartsEmpty | crates/arora-behavior-tree/src/behavior.rs:655-669 | A decorator's latch cell starts as nothing latched. |
| LatchCells.LatchesCarry | crates/arora-behavior-tree/src/behavior_tree.rs:269-313 | Exchanged so, the latches the new tree's cells hold are the previous ones but for those of decorators that start afresh. |
| LatchCells.KeepLatches | crates/arora-behavior-tree/src/behavior_tree.rs:263-313 | Taking over the state of the previous tree's cells gives the latches that `Ticking` says a lowering carries. |
| Readable.PortReadsBack | crates/arora-behavior-tree/src/readable.rs:562-575 | A port's written name names that port again, of a function known or not. |
| Readable.PortsDiffer | crates/arora-behavior-tree/src/readable.rs:562-575 | No two ports of a node are written alike. |
| Readable.GraphReadsBack | crates/arora-behavior-tree/src/readable.rs:197-209 | A graph written by names reads back as it was, every reference resolving. |
| Readable.DiffReadsBack | crates/arora-behavior-tree/src/readable.rs:281-315 | A diff written by names over a graph reads back over it as it was, every reference resolving. |
| Readable.FindPort | crates/arora-behavior-tree/src/readable.rs:369-399 | The id the text is, or the one parameter of that name, the return value counting as one; ambiguous or unknown names name none. |
| Readable.Resolver.NodeReference | crates/arora-behavior-tree/src/readable.rs:484-487 | The node a text names, or one error more. |
| Readable.Resolver.ReadPort | crates/arora-behavior-tree/src/readable.rs:489-499 | The port a text names; what does not resolve is an error, but for a node whose function did not, which was one already. |
| Readable.Resolver.ReadSource | crates/arora-behavior-tree/src/readable.rs:501-511 | The source at any depth, without an error exactly when its port resolves. |
| Readable.Resolver.ReadNode | crates/arora-behavior-tree/src/readable.rs:445-482 | The node as described, without an error if every reference resolves and no port is bound twice, and with one otherwise. |
| Readable.Resolver.ReadHeads | crates/arora-behavior-tree/src/readable.rs:430-443 | Every node listed may be named with its function, a later one of an id standing; an error exactly when a function is not found. |
| Readable.Resolver.ReadNodes | crates/arora-behavior-tree/src/readable.rs:180-189 | All the nodes listed, in order, without an error exactly when all their references resolve. |
| Readable.ResolveGraph | crates/arora-behavior-tree/src/readable.rs:176-195 | The graph exactly when every reference resolves, and otherwise none. |
| Readable.ResolveDiff | crates/arora-behavior-tree/src/readable.rs:212-279 | The diff exactly when every reference resolves: removals against the base, the rest against what is left of it and the nodes set. |
| Readable.GraphRoundTrip | crates/arora-behavior-tree/src/readable.rs:176-209 | What is written of a graph and resolved is that graph. |
| Readable.DiffRoundTrip | crates/arora-behavior-tree/src/readable.rs:212-315 | What is written of a diff over a graph and resolved over it is that diff. |
| References.PortIsNamed | crates/arora-behavior-tree/src/readable.rs:369-399 | A text that is no id names a port exactly when it is the name of that parameter and no other, or `_ret` and the name of none; then the return. |
| References.NodeIsNamed | crates/arora-behavior-tree/src/readable.rs:336-349 | A text that is no id names a node exactly when that has the id its name stands for and is among those that may be named. |
| References.SourceIsRead | crates/arora-behavior-tree/src/readable.rs:501-511 | A source is read as exactly the one it describes. |
| References.BindIsRead | crates/arora-behavior-tree/src/readable.rs:445-469 | The bindings of a node are read as exactly those described: each text a port of its own with its source, and no other. |
| References.HeadsAreThose | crates/arora-behavior-tree/src/readable.rs:430-443 | What references may name is exactly what there was and what is listed, each with what its last listed function is found to be. |
| References.GraphIsRead | crates/arora-behavior-tree/src/readable.rs:176-195 | A file is read as a graph exactly when it describes that graph, reference by reference, among the nodes it lists. |
| References.DiffIsRead | crates/arora-behavior-tree/src/readable.rs:212-279 | And as a diff exactly when it describes that diff: its removals among the nodes of the base, all else among those left and those set. |

## Left out

Contracts stated weaker than the source:

- Detached.DetachedNodes.Evaluate: a node gives one value, its return; `StatefulNodes.Evaluator.Evaluate` has several
  ports, parameters changed in place and the keys that hold them, for one node whose inputs are up to date. Cells that a
  call in an argument writes back, and calls of functions named by a computed id, are not modelled.
- StatefulNodes.Evaluator.Evaluate: the same of calls in arguments; that a function's answers depend on what it is passed
  alone is taken for granted.
- Lowering.Lower: a node's own state cells, which it may read, are not modelled; `StatefulNodes` has those of one node.
- Traces.Traces.Report: watched values are not modelled, nor the order in which a report lists its entries.
- Traces.Publish: what becomes of a write to a key is a parameter, and a trace is a value in a list rather than an object.
- Interpreter.BehaviorTreeInterpreter.Edit: whether a tree is built of a graph, and whether a graph's detached nodes
  lower against the functions of the last lowering, are given functions of those; `Sweeps.Sweep` and `Lowering.Lower` say
  when two parts of it succeed.
- Interpreter.BehaviorTreeInterpreter.Spawn: the ids it makes up are parameters, required to be new.
- Interpreter.BehaviorTreeInterpreter.SpawnGraph: the graph's type and version are not modelled, nor the handle returned.
- Interpreter.BehaviorTreeInterpreter.Tick: what the tree's nodes answer is a parameter, as in
  `Interpreter.BehaviorTreeInterpreter.TickTree`; `Sessions.Session.Tick` ticks the tree. Whether each write to the store
  succeeds is a parameter; the status written for a halted run is not modelled, and the tick counter is unbounded.
- Interpreter.BehaviorTreeInterpreter.TickTree: the same.
- Control.Ticker.TickNode: what a node that is no control node does, and the detached nodes a node reads, are given
  functions of the rest of the state; children of such a node, and what they do, are part of what it does.
- Control.Ticker.TickRunStatus: a decorator has both a latch and a status cell, or neither.
- Sessions.Session.Tick: where the resuming sequences of a new tree are, what detached nodes did, whether the sinks
  succeed and what becomes of each report are parameters; no decorator reads a detached node.
- Transport.PlaysAlongside: not for a lead that entered its window and stands outside it
  (`Transport.LeadsOutsideDiffer`), nor for a bounce that turned the lead but on the way it heads
  (`Transport.AlongsideTells`).
- Players.HeadedAlikeTravelsAlike: the same leads are left out.
- Interpreter.BehaviorTreeInterpreter.Lower: of the state carried over, the latches; `Carrying.KeepState` and
  `LatchCells.KeepLatches` tie them to the cells.
- Carrying.KeepState: both trees resolve names alike; the cells inside a call's own arguments are not modelled.
- Sweeps.Sweep: the cells of inputs that detached nodes feed, and those of detached ports bound to a key, are not
  modelled; a call is the list of the variables it reads.
- GraphEdits.Diff: graphs are values, and applying a diff gives another graph rather than changing one in place.
- Curves.Compile: the control points of a segment and the solving of its parameter are functions given as parameters,
  and the conversion of a time is any monotone function to the reals.
- Curves.Cursor.Locate: a time is a real; infinities and not-a-numbers are not modelled.
- Outputs.Engine.Outputs: what contributes to each position, in order; the blending of the contributions, and the sample
  of each, are not computed.
- Outputs.Engine.Restructure: the keys and the track ids are the two columns of one list; the ids of clips, players and
  instances do not wrap.
- Outputs.Engine.RemovePlayer: the players' transport and the commands kept before the first step are not modelled.
- Readable.ResolveGraph: errors are counted, without their place or message; the lookups of names, ids and functions are
  parameters.
- Readable.GraphReadsBack: an id written is assumed to be read back as that id, of a node and of a function.
- Readable.DiffReadsBack: the same is assumed.
- Readable.Resolver.ReadNode: the bindings are met in no set order.

Not modelled at all: the built-in nodes that are no control nodes; Groot XML, the `.bt` text and
YAML; baking, the polyline and the resolution of tangents; the interpreter's module functions and their encodings; the
engine, the bridges and the stores of the other crates.
