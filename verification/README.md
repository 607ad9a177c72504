# JointROS core: a Dafny model and its proofs

JointROS drives motor joints over CAN buses. A real-time tick thread owns each group of buses; the
ROS side hands it commands, reads snapshots, and now and then borrows the SDK context for blocking
work. This project models the ROS-free core (`jr_core`) and proves the properties that the rest of
the system leans on.

| file | what it models |
|---|---|
| `PauseProtocol.dfy` | pause / resume / stop / start against the tick thread: who may use the SDK context |
| `TripleBuffer.dfy` | the latest-value mailbox: one writer, any number of readers |
| `SpscRing.dfy` | the single-producer single-consumer ring of fault events |
| `Seqlock.dfy` | polled position and velocity, read without a lock |
| `TickGroup.dfy` | the tick: command consumption, overwrite accounting, the hook's command and the command timeout |
| `Interpolation.dfy` | the command path of one bus with linear interpolation and its resets |
| `Crc32.dfy`, `DescCache.dfy` | the checksum and the descriptor cache file |
| `Config.dfy`, `JointIndex.dfy` | the configuration gate and the global joint index |
| `Param.dfy`, `BusOps.dfy` | parameter text, batched reads, verified writes |
| `BusPlan.dfy` | the bus budget |
| `Wrappers.dfy` | an optional value |

How the concurrent parts are modelled: every shared load or store (and every word of a payload copy)
is one step of a transition function, a run is any finite sequence of events, and each theorem speaks
about all event sequences. Beside each of these step machines stands the class itself where the source
has one (`RingClass.SpscRing`, `MailboxClass.TripleBuffer`), with methods that update its fields.
The other imperative code is modelled by classes and loops whose contracts name a specification
function (`BusRuntime`, `FileSystem`, `TickGroup`, `SystemInterface`, `BusReader`, `BusWriter`), and
the theorems are about that function.

`dafny verify dfyconfig.toml` checks everything. No member is assumed; there are no axioms.

## What turned out not to hold as documented

- A `pause()` that begins after a `resume()`, before the tick thread has cleared the ready flag, takes the
  "already paused" shortcut and the two threads can meet in the SDK context. `PauseUnsafeIffReleasePending`
  gives the exact condition, `PauseRightAfterResumeIsUnsafe` a run that reaches it. What a caller can see: once the
  thread has begun a cycle since the client's last call returned, a `pause()` is safe (`PauseAfterCycleIsSafe`).
- `start()` clears only the stop flag. After `pause()`, `resume()`, `stop()`, `start()` on one object, the calls of
  `jr_bus_node.cpp` in its deactivate and activate transitions, the first `pause()` can meet the same danger
  (`PauseAfterStartUnsafeIff`, `PauseRightAfterRestartIsUnsafe`); and a request left behind without its release
  parks the new thread at once (`StartedThreadCyclesIff`).
- A `resume()` can be lost when it lands between the tick thread's last two stores while a new request is
  already posted: `ResumeRestartsUnlessOverwritten` gives the exact condition, `ResumeAfterTimeoutCanBeLost` a run,
  with a `pause()` that timed out. What a caller can see: the `resume()` that ends a `pause()` which returned kOk is
  never lost (`ResumeOfSuccessfulPauseRestarts`).
- A request can be lost: line 473 clears it together with the one before (`PauseAnsweredUnlessCleared`);
  the call that posted it then ends at its deadline (`PauseCallTimesOut`).
- The seqlock tears a sample when a whole number of 2^32 increments falls inside one read, and in no other case
  (`TearsIffWholeTurns`).
- A held position after a command timeout lasts one tick: the retained command is applied again on the
  next one (`TimeoutFiresOncePerSilence` states what every tick applies).
- In MIT mode the SDK is sent the raw target, not the interpolated one: what it gets is the recorded value exactly when
  the ramp has run out or has nothing to blend (`DeviceGetsRecordedValueUnlessMit`,
  `NewCommandSendsRecordedValueUnlessMit`, and a joint in mid-ramp in `MitMidRampSendsTarget`).
- The joint targets of an `RtHook` never reach a bus: `set_mask` marks them in `block`, and the tick tests `mask`,
  which its comment calls an alias and nothing sets. A hook has an effect exactly when it asks for a stop or a
  release of all torque (`HookReachesBusIffStops`).
- A command that arrives before the running ramp has ended makes the recorded value jump, unless the ramp is flat
  (`JumpsIffEarly`).
- Integer text that starts with white space other than blanks gets past the sign check, so `"\n-1"` is read as
  a huge unsigned number (`DocumentedUnlessStray`, `NegativeTextAsUnsigned`).
- A payload of 2^32 bytes or more is saved but never loaded back as it was (`SaveThenLoad`).
- The result of the `fclose` in the cache's save is ignored: when it fails, a truncated file replaces the old one and
  a hit is reported (`Save` states it by what reached the disk); such a file is an error on load, never a hit
  (`HitLoadsIffClosed`).
- A group's bus list that names all eight buses and claims more entries is searched past the end of its
  array before it can be refused (`ValidateConfig`, `OverrunNeedsEveryBus`, and a configuration in
  `OverrunIsReached`). The YAML loader refuses such lists (`jr_config_yaml.cpp:489`), so only direct callers of
  `validate_config` can get there.
- A failed save to flash is not reported when the caller passes no result to fill (`OverallOkIff`).
- With an inferred highest node id, more joints can lower the computed load when they end broadcasting:
  `MoreJointsCostMoreIff` gives the exact condition for every policy, `EighthJointCanLowerLoad` a case where it fails.
  Only callers who fill in `BusPlanInput` themselves with `max_node_id` 0 can hit it; `PlanConfig` shows that accepted
  configurations cannot.

## Model

| member | source | states |
|---|---|---|
| `PauseProtocol.PatientClientIsExclusive` | jr_ros2/src/rt/jr_tick_group.cpp:268-318 | in every interleaving, over any number of lifetimes from start to stop, client and tick thread never hold the SDK context together, also after timed-out pauses and lost requests, if no pause begins while a release is pending |
| `PauseProtocol.PauseUnsafeIffReleasePending` | jr_ros2/src/rt/jr_tick_group.cpp:286-297 | from any state that the invariant allows, beginning a pause can lead to shared ownership if and only if a release is stored and not yet acted on |
| `PauseProtocol.PauseAfterCycleIsSafe` | jr_ros2/src/rt/jr_tick_group.cpp:444-478 | once the thread has begun a cycle since the client's last call returned, a pause that begins any number of thread steps later cannot lead to shared ownership |
| `PauseProtocol.PauseRightAfterResumeIsUnsafe` | jr_ros2/src/rt/jr_tick_group.cpp:286-318 | an ordinary pause and resume reach a state in which the next pause is unsafe |
| `PauseProtocol.PauseAfterStartUnsafeIff` | jr_ros2/src/rt/jr_tick_group.cpp:159-183 | the first pause after a restart is unsafe if and only if the last lifetime left its release beside its ready or request flag |
| `PauseProtocol.PauseRightAfterRestartIsUnsafe` | jr_ros2/src/rt/jr_tick_group.cpp:177-227 | pause, resume and stop reach such a state |
| `PauseProtocol.StartedThreadCyclesIff` | jr_ros2/src/rt/jr_tick_group.cpp:177-183 | a restarted thread comes to its cycle if and only if no request was left without its release |
| `PauseProtocol.ResumeRestartsUnlessOverwritten` | jr_ros2/src/rt/jr_tick_group.cpp:468-476 | resume brings the thread back to its cycle if and only if its store is not overwritten while another request waits |
| `PauseProtocol.ResumeAfterTimeoutCanBeLost` | jr_ros2/src/rt/jr_tick_group.cpp:472-474 | such a lost resume is reached from the first start, after a pause that timed out |
| `PauseProtocol.ResumeOfSuccessfulPauseRestarts` | jr_ros2/src/rt/jr_tick_group.cpp:314-318 | the resume that ends a successful pause always brings the cycle back, however the thread runs meanwhile |
| `PauseProtocol.PauseAnsweredUnlessCleared` | jr_ros2/src/rt/jr_tick_group.cpp:445-448 | a polling pause is answered within five steps of the tick thread unless its request is cleared with the one before, and then never |
| `PauseProtocol.StartedThreadBegins` | jr_ros2/src/rt/jr_tick_group.cpp:436-466 | a restarted thread first disables the joints if a request was left, else it cycles |
| `PauseProtocol.PauseOfStoppedReturns` | jr_ros2/src/rt/jr_tick_group.cpp:270-284 | a pause without a thread hands over the context at once and changes nothing else |
| `PauseProtocol.PauseOfPausedReturns` | jr_ros2/src/rt/jr_tick_group.cpp:286-289 | so does a pause of a parked thread |
| `PauseProtocol.PauseCallParks` | jr_ros2/src/rt/jr_tick_group.cpp:290-306 | from any other patient state, within five thread steps the thread parks and the call returns with the context, unless it met the thread about to clear the request |
| `PauseProtocol.PauseCallTimesOut` | jr_ros2/src/rt/jr_tick_group.cpp:299-311 | in that case only the deadline ends the call, without the context, however long it polls |
| `PauseProtocol.StopReturns` | jr_ros2/src/rt/jr_tick_group.cpp:438-440 | from wherever the thread is when stop waits for it, at most nine of its steps end it, and two steps of the client end the call with the group not running |
| `PauseProtocol.StopCallReturns` | jr_ros2/src/rt/jr_tick_group.cpp:210-227 | the whole call returns, however often the thread steps between the client's two stores |
| `PauseProtocol.InvStep` | jr_ros2/src/rt/jr_tick_group.cpp:438-479 | every step of either thread, pause, resume, stop and start keeps the ownership invariant |
| `PauseProtocol.StrandedStaysParked` | jr_ros2/src/rt/jr_tick_group.cpp:450-451 | a thread that missed its release stays parked however long it runs |
| `RingSteps.PoppedIsPrefixOfAccepted` | jr_ros2/include/jr_ros2/rt/jr_spsc_ring.hpp:27-56 | for every N and interleaving: popped items are whole and a prefix of the accepted ones, accepted + dropped accounts for every attempt, and the cached and real indices stay ordered |
| `RingSteps.RefusalsAreGenuine` | jr_ros2/include/jr_ros2/rt/jr_spsc_ring.hpp:31-38 | a push is dropped only when N items were unread at its reload; a pop is refused only when none was |
| `RingSteps.NoUnreadSlotIsWritten` | jr_ros2/include/jr_ros2/rt/jr_spsc_ring.hpp:39-40 | the slot being written holds no unread item and is not the one being read |
| `RingSteps.EveryReturnIsRecorded` | jr_ros2/include/jr_ros2/rt/jr_spsc_ring.hpp:27-56 | every push that returns has appended its item or left one drop, every pop one item or one empty return, and nothing else is recorded |
| `RingSteps.QuietPush` | jr_ros2/include/jr_ros2/rt/jr_spsc_ring.hpp:27-42 | an undisturbed push ends within width + 5 steps with its item appended if fewer than N were unread, else with one more drop |
| `RingSteps.QuietPop` | jr_ros2/include/jr_ros2/rt/jr_spsc_ring.hpp:45-56 | an undisturbed pop ends within width + 5 steps with the oldest unread item delivered if there is one, else with the destination untouched |
| `RingSteps.InvStep` | jr_ros2/include/jr_ros2/rt/jr_spsc_ring.hpp:27-56 | every atomic step of producer and consumer keeps the ring invariant |
| `RingClass.SpscRing.Push` | jr_ros2/include/jr_ros2/rt/jr_spsc_ring.hpp:27-42 | appends the item if and only if there is room, else keeps the content and counts the drop |
| `RingClass.SpscRing.Pop` | jr_ros2/include/jr_ros2/rt/jr_spsc_ring.hpp:45-56 | takes exactly the oldest item, or leaves the destination alone when there is none |
| `MailboxSteps.DeliveriesAreWholeAndRising` | jr_ros2/include/jr_ros2/rt/jr_triple_buffer.hpp:86-143 | with one writer, any readers and word-by-word copies, every true read delivers one whole published value, and delivered publish numbers rise strictly over all readers |
| `MailboxSteps.QuietReadDeliversLastPublish` | jr_ros2/include/jr_ros2/rt/jr_triple_buffer.hpp:129-143 | an undisturbed read delivers exactly the last publish if one waits, else changes nothing |
| `MailboxSteps.QuietPublish` | jr_ros2/include/jr_ros2/rt/jr_triple_buffer.hpp:86-94 | after an undisturbed publish the staged value waits and is counted, whatever waited before |
| `MailboxSteps.QuietStore` | jr_ros2/include/jr_ros2/rt/jr_triple_buffer.hpp:108-114 | word by word filled in and published undisturbed, any value waits as it is |
| `MailboxSteps.StepsActAtOnce` | jr_ros2/include/jr_ros2/rt/jr_triple_buffer.hpp:86-143 | seen as one cell the mailbox changes at two kinds of step only: a publish replaces what waits, a true read takes exactly what waits, a false read finds nothing |
| `MailboxSteps.OneEffectPerPublish` | jr_ros2/include/jr_ros2/rt/jr_triple_buffer.hpp:86-94 | every publish has exactly one such step between call and return |
| `MailboxSteps.OneEffectPerRead` | jr_ros2/include/jr_ros2/rt/jr_triple_buffer.hpp:129-143 | so has every read, and it returns what that step was, with the value taken |
| `MailboxSteps.FalseReadMissedNothing` | jr_ros2/include/jr_ros2/rt/jr_triple_buffer.hpp:129-143 | a read returns false only if nothing was published or the last publish was already delivered |
| `MailboxSteps.PublishesAreAccountedFor` | jr_ros2/include/jr_ros2/rt/jr_triple_buffer.hpp:86-143 | every publish was delivered, was replaced while it waited, or is the last one, still to be delivered |
| `MailboxSteps.HasValueMeansPublished` | jr_ros2/include/jr_ros2/rt/jr_triple_buffer.hpp:97-106 | a non-zero publish count means that something was published, and outside the writer's lock the live payload is the last published one |
| `MailboxSteps.CopiesExclude` | jr_ros2/include/jr_ros2/rt/jr_triple_buffer.hpp:170-187 | the spin lock admits at most one copy of the payload at a time |
| `MailboxSteps.InvStep` | jr_ros2/include/jr_ros2/rt/jr_triple_buffer.hpp:86-143 | every step of the writer and of any reader keeps the mailbox invariant |
| `MailboxClass.TripleBuffer.Store` | jr_ros2/include/jr_ros2/rt/jr_triple_buffer.hpp:108-114 | the stored value waits to be read, whatever waited before |
| `MailboxClass.TripleBuffer.Read` | jr_ros2/include/jr_ros2/rt/jr_triple_buffer.hpp:129-143 | takes what waits, exactly once; when nothing waits the destination is untouched |
| `Seqlock.AcceptedSamplesAreGenuine` | jr_ros2/src/rt/jr_bus_runtime.cpp:2017-2036 | every accepted sample is one completed set, in force when the read began, never a clear and no older than 3 * poll_ms + 50 ms, if the sequence word does not go round within the read |
| `Seqlock.QuietReadTakesFreshSet` | jr_ros2/src/rt/jr_bus_runtime.cpp:2017-2029 | a read that meets no write takes over exactly the last completed set, if and only if polling is on and its stamp is not 0, not in the future and at most 3 * poll_ms + 50 ms old |
| `Seqlock.WholeTurnsTearTheSample` | jr_ros2/src/rt/jr_bus_runtime.cpp:1873-1896 | for every whole number of turns of the 32-bit word within a read, some run accepts a mix that no call stored |
| `Seqlock.TearsIffWholeTurns` | jr_ros2/src/rt/jr_bus_runtime.cpp:2017-2036 | the increment counts within a read that can tear a sample are exactly the non-zero multiples of 2^32 |
| `Seqlock.InvStep` | jr_ros2/src/rt/jr_bus_runtime.cpp:1873-1896 | every store of a set or clear and every load of the reader keeps the seqlock invariant |
| `TickGroup.CommandsAreConserved` | jr_ros2/src/rt/jr_tick_group.cpp:521-533 | for commands numbered from 1 and any interleaving of submits and ticks: consumed + overwritten = last number - first consumed number + 1; at a tick boundary this accounts for every submit; consumed commands are genuine and in order |
| `TickGroup.OverwritesCountGaps` | jr_ros2/src/rt/jr_tick_group.cpp:522-524 | for any numbering a consumed command adds the numbers left out, and nothing when it repeats one, goes back or is the first |
| `TickGroup.TickEmptiesMailbox` | jr_ros2/src/rt/jr_tick_group.cpp:521-533 | after a tick no command waits |
| `TickGroup.TimeoutFiresOncePerSilence` | jr_ros2/src/rt/jr_tick_group.cpp:671-720 | with tick times that do not go back: a tick applies the last consumed command, and fires if and only if it is the first one more than the limit after it; two firings are separated by a consumed command |
| `TickGroup.FiringsAtMostConsumptions` | jr_ros2/src/rt/jr_tick_group.cpp:671-720 | the timeout fires at most once per consumed command |
| `TickGroup.SilenceIsNoticed` | jr_ros2/src/rt/jr_tick_group.cpp:676-683 | a tick later than the limit means the timeout has fired since the last command |
| `TickGroup.LatchedIffStopStands` | jr_ros2/src/rt/jr_tick_group.cpp:532-718 | over any run a stop is latched if and only if the timeout has stopped the buses and nothing but stops was consumed since |
| `TickGroup.ClockSteppingBackFiresTwice` | jr_ros2/src/rt/jr_tick_group.cpp:677-681 | tick times that step back let one silence fire twice |
| `TickGroup.TickGroup.SubmitCommand` | jr_ros2/src/rt/jr_tick_group.cpp:238-241 | the command becomes the pending one and nothing else changes |
| `TickGroup.TickGroup.ConsumePending` | jr_ros2/src/rt/jr_tick_group.cpp:521-533 | takes the pending command over, with 64-bit overwrite arithmetic |
| `TickGroup.TickGroup.ApplyCommandTimeout` | jr_ros2/src/rt/jr_tick_group.cpp:671-720 | acts on every bus exactly when watching, expired and not yet fired |
| `TickGroup.TickGroup.ApplyToAll` | jr_ros2/src/rt/jr_tick_group.cpp:548-557 | every bus in order is given the retained command once, if there is one, and after it the hook's if that passes the test |
| `TickGroup.TickGroup.RunHook` | jr_ros2/src/rt/jr_tick_group.cpp:535-546 | marks and flags of the last tick are gone; what the hook calls on its writer is written in order |
| `TickGroup.SilentHookMarksNothing` | jr_ros2/src/rt/jr_tick_group.cpp:536-539 | nothing of the hook's last tick is left: no joint, no stop, no release |
| `TickGroup.WriterMarksTarget` | jr_ros2/include/jr_ros2/rt/jr_rt_hook.hpp:48-74 | a writer call marks its joint with the values given and leaves every other joint alone |
| `TickGroup.TickGroup.RunCycle` | jr_ros2/src/rt/jr_tick_group.cpp:500-574 | a tick moves the command state by the function that the run theorems are about, and its bus calls are those of the seven steps and the guard, in order |
| `TickGroup.EachBusTicksInOrder` | jr_ros2/src/rt/jr_tick_group.cpp:502-574 | in every tick each bus is opened, read for the snapshot, given the retained command before the hook's, asked to broadcast unless its policy is unicast only, and closed; the timeout acts last |
| `TickGroup.HookReachesBusIffStops` | jr_ros2/include/jr_ros2/jr_command.hpp:58-75 | whatever a hook writes, the bus calls of the tick are those of a silent hook if and only if it asks for no stop and no release; else the command carries exactly the stop and the release asked for, and its targets are ignored by the bus |
| `Interpolation.BusRuntime.ApplyCommand` | jr_ros2/src/rt/jr_bus_runtime.cpp:1567-1678 | every masked joint makes its interpolation step and nothing else changes; stop and release commands reset every joint instead |
| `Interpolation.BusRuntime.ApplyOne` | jr_ros2/src/rt/jr_bus_runtime.cpp:1580-1676 | one joint: mode check, new command, progress and SDK calls in the order of the code |
| `Interpolation.BusRuntime.CommandTick` | jr_ros2/src/rt/jr_tick_group.cpp:504-553 | one tick of an open bus sets the clock before it applies the command, so every masked joint makes the step of that very time |
| `Interpolation.BusRuntime.SetInterpolation` | jr_ros2/src/rt/jr_bus_runtime.cpp:1519-1532 | forgets the history of all joints, so the next accepted command of each is recorded as it is |
| `Interpolation.BusRuntime.EstopNow` | jr_ros2/src/rt/jr_bus_runtime.cpp:1770-1783 | stops the bus and forgets every ramp, also on a closed bus, so the next accepted command of each joint is recorded as it is |
| `Interpolation.BusRuntime.HoldAll` | jr_ros2/src/rt/jr_bus_runtime.cpp:1785-1815 | forgets every ramp, so the next accepted command of each joint is recorded as it is, and holds each joint, by PD only in MIT mode with a gain |
| `Interpolation.BusRuntime.ZeroTorqueAll` | jr_ros2/src/rt/jr_bus_runtime.cpp:1817-1828 | forgets every ramp, so the next accepted command of each joint is recorded as it is, and releases each joint |
| `Interpolation.LerpBlendsMotionOnly` | jr_ros2/src/rt/jr_bus_runtime.cpp:1541-1565 | exactly the motion quantities of the mode are blended; gains and limits are those of the new target |
| `Interpolation.NewCommandStartsRamp` | jr_ros2/src/rt/jr_bus_runtime.cpp:1601-1624 | a new command starts a ramp from the previous target, as long as the measured interval clamped to 0.5 ms .. 200 ms |
| `Interpolation.RetainedCommandFollowsRamp` | jr_ros2/src/rt/jr_bus_runtime.cpp:1625-1633 | each later tick of the same command moves the joint along that ramp |
| `Interpolation.CommandRampsAndArrives` | jr_ros2/src/rt/jr_bus_runtime.cpp:1600-1637 | over any ticks of a retained command the recorded value is on one straight ramp of at most 200 ms, equals the target from its end on and stays there |
| `Interpolation.RampIsMonotone` | jr_ros2/src/rt/jr_bus_runtime.cpp:1541-1565 | along a ramp every motion quantity stays between its ends and only moves towards the target |
| `Interpolation.FirstCommandAppliesAtOnce` | jr_ros2/src/rt/jr_bus_runtime.cpp:1617-1622 | after a reset the next accepted command takes effect at once |
| `Interpolation.WrongModeOnlyCounts` | jr_ros2/src/rt/jr_bus_runtime.cpp:1585-1594 | a command changes the refusal counter and nothing else if and only if its mode is not the joint's |
| `Interpolation.AcceptedStepSends` | jr_ros2/src/rt/jr_bus_runtime.cpp:1637-1676 | for every mode: the calls that one accepted step makes, with their arguments, when limits follow and which MIT call is chosen |
| `Interpolation.DeviceGetsRecordedValueUnlessMit` | jr_ros2/src/rt/jr_bus_runtime.cpp:1637-1674 | at every tick of a retained command the SDK calls are those of the recorded value if and only if the mode is not MIT, the ramp has run out, or its ends have the same motion |
| `Interpolation.NewCommandSendsRecordedValueUnlessMit` | jr_ros2/src/rt/jr_bus_runtime.cpp:1601-1674 | at the tick of a new command, if and only if the mode is not MIT or the previous target has the same motion |
| `Interpolation.MitMidRampSendsTarget` | jr_ros2/src/rt/jr_bus_runtime.cpp:1665-1673 | a new MIT joint given two commands records 0.5 rad half way up the ramp and is sent 1 rad |
| `Interpolation.JumpsIffEarly` | jr_ros2/src/rt/jr_bus_runtime.cpp:1603-1616 | when a new command replaces one on its ramp, the recorded value is the one the old command would have given if and only if its ramp had ended or was flat |
| `Interpolation.ConstantRateFollowsTrajectory` | jr_ros2/src/rt/jr_bus_runtime.cpp:1600-1637 | when the commands that a joint consumes come at a constant interval between 0.5 ms and 200 ms, with any numbers that differ from one to the next (so others may be overwritten or mask other joints in between), the recorded value at every tick is the piecewise linear trajectory through the targets |
| `Interpolation.ChangeWithinPeriod` | jr_ros2/src/rt/jr_bus_runtime.cpp:1600-1637 | within one interval P, including the tick of the next command, two ticks D apart change a quantity by exactly (to - from) * D / P |
| `Interpolation.TrajectoryRate` | jr_ros2/src/rt/jr_bus_runtime.cpp:1600-1637 | the trajectory through the targets obeys the rate bound over any number of intervals |
| `Interpolation.AppliedRateBound` | jr_ros2/src/rt/jr_bus_runtime.cpp:1600-1637 | over the whole of such a run, any two ticks D apart change the recorded value by at most m * D / P, where m bounds the steps between targets |
| `Crc32.BuildTable` | jr_ros2/src/rt/jr_desc_cache.cpp:104-113 | the table holds eight bit steps of its index |
| `Crc32.Checksum` | jr_ros2/src/rt/jr_desc_cache.cpp:100-120 | equals the bit-serial reflected CRC-32 (section 8 of RFC 1952) of every byte string |
| `Crc32.CheckValue` | jr_ros2/src/rt/jr_desc_cache.cpp:100-120 | the checksum of the digits 1 to 9 is 0xCBF43926, which fixes polynomial, preset, inversion and bit order |
| `Crc32.EightBitsAreOneLookup` | jr_ros2/src/rt/jr_desc_cache.cpp:117 | eight bit steps are one table lookup and a shift |
| `Crc32.ByteStepIsEightBits` | jr_ros2/src/rt/jr_desc_cache.cpp:116-118 | the byte update equals feeding the eight bits, lowest first |
| `Crc32.BitStepInjective` | jr_ros2/src/rt/jr_desc_cache.cpp:108 | the bit step loses nothing |
| `Crc32.FeedIsPackedSteps` | jr_ros2/src/rt/jr_desc_cache.cpp:107-109 | feeding up to 32 bits is as many bit steps from the register with those bits mixed in |
| `Crc32.BurstDetected` | jr_ros2/src/rt/jr_desc_cache.cpp:100-120 | different equal-length payloads whose bits differ only within 32 consecutive ones have different checksums |
| `Crc32.FourByteWindowDetected` | jr_ros2/src/rt/jr_desc_cache.cpp:100-120 | so have payloads that differ only within four consecutive bytes |
| `DescCache.HeaderRoundTrip` | jr_ros2/src/rt/jr_desc_cache.cpp:22-32 | reading the packed header back gives the fields written |
| `DescCache.WriteTmp` | jr_ros2/src/rt/jr_desc_cache.cpp:223-246 | touches the temporary file only; success means it holds a prefix of the image, all of it exactly when fclose succeeded |
| `DescCache.Save` | jr_ros2/src/rt/jr_desc_cache.cpp:190-258 | at every point of every run, failing operations included, the target is the old file, absent or the file that reached the disk, the old one is gone only once that file is there, and no other file is touched; that file is a prefix of the image, all of it if and only if the ignored fclose succeeded; if the stream took less, only the temporary file ever changes; after an error the target has only ever been the old file or absent; a hit means that the file is in place |
| `DescCache.Load` | jr_ros2/src/rt/jr_desc_cache.cpp:122-188 | decides hit, miss or error as the lookup that the theorems are about, with the table-driven checksum |
| `DescCache.SaveThenLoad` | jr_ros2/src/rt/jr_desc_cache.cpp:122-188 | a saved file loads back with identical bytes and metadata for its own or any firmware if and only if it is shorter than 2^32 bytes, and is a miss for another firmware |
| `DescCache.HitLoadsIffClosed` | jr_ros2/src/rt/jr_desc_cache.cpp:122-188 | what a saving hit left in place loads back as it was if fclose succeeded, and is an error otherwise |
| `DescCache.NoHeaderIsNeverLoaded` | jr_ros2/src/rt/jr_desc_cache.cpp:122-140 | no file is a miss, a file shorter than the header an error |
| `DescCache.ForeignFileIsNeverLoaded` | jr_ros2/src/rt/jr_desc_cache.cpp:141-150 | a file with another magic number or format version is an error |
| `DescCache.TruncatedIsNeverLoaded` | jr_ros2/src/rt/jr_desc_cache.cpp:136-167 | no proper prefix of a saved file is ever a hit |
| `DescCache.AlteredPayloadIsNeverLoaded` | jr_ros2/src/rt/jr_desc_cache.cpp:161-174 | nor is a saved file altered within 32 consecutive payload bits |
| `DescCache.FourAlteredBytesAreNeverLoaded` | jr_ros2/src/rt/jr_desc_cache.cpp:161-174 | nor one altered within four consecutive payload bytes |
| `Config.ValidateConfig` | jr_ros2/src/rt/jr_config.cpp:144-540 | accepts exactly the configurations of a declarative predicate; says "not supported" exactly for an enabled deadline policy; and states exactly when the bus-list search leaves its array |
| `Config.CheckLink` | jr_ros2/src/rt/jr_config.cpp:202-330 | the checks of one bus decide its part of that predicate |
| `Config.CheckJoint` | jr_ros2/src/rt/jr_config.cpp:332-434 | the searches among earlier joints decide whether name and node id are new |
| `Config.BusesPassIffUnique` | jr_ros2/src/rt/jr_config.cpp:349-371 | searching backwards from every joint finds exactly the repeated names on any buses and repeated node ids on one |
| `Config.CheckBus` | jr_ros2/src/rt/jr_config.cpp:202-434 | one pass of the bus loop decides the bus, its joints and their novelty |
| `Config.CheckOverview` | jr_ros2/src/rt/jr_config.cpp:157-200 | counts, total and real-time section, with the one status of its own |
| `Config.CheckGroups` | jr_ros2/src/rt/jr_config.cpp:437-477 | all groups are in order, or the first that is not decides the outcome |
| `Config.CheckGroup` | jr_ros2/src/rt/jr_config.cpp:437-477 | accepts a group exactly when name, rate and bus list are in order |
| `Config.OverrunNeedsEveryBus` | jr_ros2/src/rt/jr_config.cpp:461-476 | only a list that is a permutation of all eight buses leads the search past its end |
| `Config.OverrunIsReached` | jr_ros2/src/rt/jr_config.cpp:461-476 | a configuration that passes every earlier check does so |
| `Config.FullConfigIsAccepted` | jr_ros2/src/rt/jr_config.cpp:144-540 | with the count right the same configuration of eight buses is accepted |
| `Config.AcceptedIsBounded` | jr_ros2/src/rt/jr_config.cpp:157-350 | the limits of an accepted configuration in figures: buses, groups, joints, names, node ids, modes and rates |
| `Config.CountHits` | jr_ros2/src/rt/jr_config.cpp:480-486 | the nested counters give the number of entries that name a bus |
| `Config.OneHitIffDrivenOnce` | jr_ros2/src/rt/jr_config.cpp:480-501 | one hit means exactly one entry of one group drives the bus, and conversely |
| `Config.CheckDrivers` | jr_ros2/src/rt/jr_config.cpp:480-501 | passes exactly when every bus is driven once |
| `Config.TotalJointCount` | jr_ros2/src/rt/jr_config.cpp:119-125 | the sum of the joint counts in 32-bit arithmetic |
| `Config.BusesNeedNoTotal` | jr_ros2/src/rt/jr_config.cpp:177-181 | the check of the total refuses nothing that the checks of the buses would pass |
| `Config.GroupsPartitionBuses` | jr_ros2/src/rt/jr_config.cpp:437-501 | in an accepted configuration the groups' lists together are a permutation of the buses and their lengths add up to the bus count |
| `Config.EveryJointHasOneThread` | jr_ros2/src/rt/jr_config.cpp:479-501 | every global joint index is served by exactly one entry of one group, so groups own disjoint joints |
| `JointIndex.FindJoint` | jr_ros2/src/rt/jr_config.cpp:127-142 | on any configuration, the first joint of that name in bus order with its narrowed index, or -1 exactly when there is none |
| `JointIndex.BusJointBase` | jr_ros2/src/rt/jr_config.cpp:99-106 | the number of joints on earlier buses, all of them when there is no such bus, in 32-bit arithmetic |
| `JointIndex.LocateJoint` | jr_ros2_control/src/jr_system_interface.cpp:268-281 | finds the position of every index below the total and of no other |
| `JointIndex.IndexIsBijective` | jr_ros2/src/rt/jr_config.cpp:99-106 | bus base + local number hits every value below the total exactly once |
| `JointIndex.FindAndLocate` | jr_ros2_control/src/jr_system_interface.cpp:268-281 | locating the index found for a joint's name gives back bus and local number |
| `JointIndex.NamesDistinct` | jr_ros2/src/rt/jr_config.cpp:349-371 | in an accepted configuration a name stands for one index |
| `JointIndex.SystemInterface.MapJoints` | jr_ros2_control/src/jr_system_interface.cpp:178-266 | succeeds exactly when every name is a configured joint not in current mode; then each entry holds that joint's index and mode, and indices coincide exactly when names do |
| `JointIndex.SystemInterface.MapNames` | jr_ros2_control/src/jr_system_interface.cpp:188-221 | maps all names exactly when all are configured |
| `JointIndex.SystemInterface.CollectNames` | jr_ros2_control/src/jr_system_interface.cpp:180-186 | the name list holds the configured joints in global index order |
| `JointIndex.SystemInterface.RefuseCurrent` | jr_ros2_control/src/jr_system_interface.cpp:243-265 | passes exactly when no mapped joint is in current mode |
| `JointIndex.SameIndexAsFindJoint` | jr_ros2/src/rt/jr_config.cpp:127-142 | name lookup by the two components gives the same index |
| `Param.ParseParamText` | jr_ros2/src/rt/jr_param.cpp:203-283 | the pointer-walking parser computes the function that the theorems are about |
| `Param.SkipWs` | jr_ros2/src/rt/jr_param.cpp:24-28 | stops after the longest run of blanks |
| `Param.OnlyWsLeft` | jr_ros2/src/rt/jr_param.cpp:30-34 | true exactly when only blanks are left |
| `Param.ParsedHasItsType` | jr_ros2/src/rt/jr_param.cpp:203-283 | a parsed value has the type asked for and is in its range; types without text never parse |
| `Param.RangesAreTheTypes` | jr_ros2/src/rt/jr_param.cpp:240-276 | the limits of every integer type are those of its bits, two's complement where signed |
| `Param.ClassesAre` | jr_ros2/src/rt/jr_param.cpp:24-34 | which characters are blanks, white space of the library, decimal and hexadecimal digits |
| `Param.DigitsCount` | jr_ros2/src/rt/jr_param.cpp:233-260 | the value of every digit in either case |
| `Param.ConversionSaturates` | jr_ros2/src/rt/jr_param.cpp:233-262 | a number out of the 64-bit range is reported and gives the nearest bound, and a minus sign wraps an unsigned one (section 7.22.1.4 of ISO/IEC 9899:2011) |
| `Param.BoolsParseExactly` | jr_ros2/src/rt/jr_param.cpp:220-229 | a text is true or false if and only if it is blanks followed by exactly one of the four words for it |
| `Param.IntegersParseExactly` | jr_ros2/src/rt/jr_param.cpp:227-283 | for every integer type and every text: accepted exactly the documented numerals in range, with their number, and the texts that rely on the library skipping more white space |
| `Param.DocumentedUnlessStray` | jr_ros2/src/rt/jr_param.cpp:24-48 | the code follows its grammar on a text if and only if the text is no such stray, and no text is one unless its first non-blank character is other white space |
| `Param.NegativeTextAsUnsigned` | jr_ros2/src/rt/jr_param.cpp:231-236 | a line feed before a minus sign gets past the check and wraps |
| `Param.ConversionOf` | jr_ros2/src/rt/jr_param.cpp:233-234 | the library call converts exactly the digits of the numeral (section 7.22.1.4 of ISO/IEC 9899:2011) |
| `Param.ValuesEqualIff` | jr_ros2/src/rt/jr_param.cpp:182-202 | values compare equal if and only if they are the same value of the same type |
| `Param.CutNeverParses` | jr_ros2/src/rt/jr_param.cpp:309-327 | a formatted integer cut short is read as another number or not at all |
| `Param.RoundTrip` | jr_ros2/src/rt/jr_param.cpp:309-327 | for every boolean and integer value: parsing the formatted text gives an equal value if and only if the buffer held the whole text |
| `BusOps.BusReader.ReadParams` | jr_ros2/src/rt/jr_bus_ops.cpp:247-345 | every addressed item ends with the device's value and status for its joint and path and, when it was read, the declared type, as if read alone; every other item is refused without a value; the calls are the batches of each joint; counts add up; overall kOk if and only if every item is |
| `BusOps.BusReader.ReadJoint` | jr_ros2/src/rt/jr_bus_ops.cpp:278-321 | one joint's items go out in consecutive batches of 16 and are settled by the answers |
| `BusOps.BusReader.Flush` | jr_ros2/src/rt/jr_bus_ops.cpp:293-308 | one call to the device settles exactly the waiting items and counts each |
| `BusOps.BusReader.ClearItems` | jr_ros2/src/rt/jr_bus_ops.cpp:258-276 | clears every item and settles exactly those that cannot be sent |
| `BusOps.BusReader.DeclareTypes` | jr_ros2/src/rt/jr_bus_ops.cpp:325-336 | adds the declared type to exactly the items that were read |
| `BusOps.EachItemIsSentOnce` | jr_ros2/src/rt/jr_bus_ops.cpp:278-321 | over all batches every valid item is sent exactly once and no other; no batch is empty or larger than 16 |
| `BusOps.FewestCalls` | jr_ros2/src/rt/jr_bus_ops.cpp:278-321 | a joint costs no more calls than its items fill batches |
| `BusOps.MapSdk` | jr_ros2/src/rt/jr_sdk_map.hpp:24-40 | for every status, exactly the SDK codes that become it; no code becomes kUnverified |
| `BusOps.BusWriter.WriteItemAt` | jr_ros2/src/rt/jr_bus_ops.cpp:374-491 | classifies one item and sends it only if every check passes |
| `BusOps.BusWriter.WriteItems` | jr_ros2/src/rt/jr_bus_ops.cpp:374-491 | classifies all items on their own, with the three counters and the writes in item order |
| `BusOps.BusWriter.MarkPersisted` | jr_ros2/src/rt/jr_bus_ops.cpp:501-503 | marks exactly the accepted items |
| `BusOps.CountsAddUp` | jr_ros2/src/rt/jr_bus_ops.cpp:370-372 | accepted, unverified and failed make up all items |
| `BusOps.ItemMeaning` | jr_ros2/src/rt/jr_bus_ops.cpp:374-491 | verified, consumed, unverified and failed mean what the header says, in both directions |
| `BusOps.FirmwareConsumesIff` | jr_ros2/src/rt/jr_bus_ops.cpp:155-159 | a path is one that the firmware takes away if and only if it contains the marked words |
| `BusOps.RefusalMeaning` | jr_ros2/src/rt/jr_bus_ops.cpp:384-447 | which status a refused item has, reason by reason, and the declared type it reports |
| `BusOps.BusWriter.WriteParams` | jr_ros2/src/rt/jr_bus_ops.cpp:351-523 | the device sees exactly the sendable writes in order; saving is attempted exactly when asked for and nothing failed, and marks only accepted items |
| `BusOps.OverallMeaning` | jr_ros2/src/rt/jr_bus_ops.cpp:493-515 | which other status it is: a failed item's, a failed save's or an unverified item's, in that order |
| `BusOps.OverallOkIff` | jr_ros2/src/rt/jr_bus_ops.cpp:493-523 | overall kOk if and only if every item is kOk and no failed save was reported |
| `BusPlan.PlanBus` | jr_ros2/src/rt/jr_bus_plan.cpp:83-195 | per-tick sums equal the closed form in frames per second; broadcast + unicast + heartbeat frames = tx + rx frames; load * 1e6 = rate * us_per_tick + extra * unicast time; feasible, warn and advice as the load says |
| `BusPlan.PerTick` | jr_ros2/src/rt/jr_bus_plan.cpp:109-149 | the policy switch gives, times the rate, the unicast frames per second of the closed form |
| `BusPlan.PollRate` | jr_ros2/src/rt/jr_bus_plan.cpp:117-144 | polling takes turns over the joints |
| `BusPlan.FrameInBits` | jr_ros2/src/rt/jr_bus_plan.cpp:50-76 | the time of a classic and of an FD frame in whole bits, with one stuff bit for every five begun |
| `BusPlan.FrameTimeMonotone` | jr_ros2/src/rt/jr_bus_plan.cpp:50-76 | a frame takes no longer with fewer bytes or faster rates, and never a negative time |
| `BusPlan.FeedbackIsTheFaster` | jr_ros2/src/rt/jr_bus_plan.cpp:163-179 | the feedback rate is the faster of heartbeats and polling, or the tick rate when every joint answers |
| `BusPlan.EveryRequestIsAnswered` | jr_ros2/src/rt/jr_bus_plan.cpp:115-144 | half of the unicast frames are answers, but for the one per tick that a broadcast saves; commands sent one by one under a heartbeat policy have none |
| `BusPlan.BroadcastsUpToSeven` | jr_ros2/src/rt/jr_bus_plan.cpp:98-107 | a bus broadcasts if and only if it is allowed to and its highest node id, configured or inferred, is at most 7 |
| `BusPlan.SixFrames` | docs/DESIGN.zh-CN.md:671-677 | the documented frame times: 155, 80.6, 100.6, 173.6 and 189 microseconds |
| `BusPlan.UnicastScenarios` | docs/DESIGN.zh-CN.md:671-690 | the documented table: six joints at 1 kHz by unicast load an FD bus to exactly 118.092 % with 5 ms heartbeats, by 6000 frames out and 7200 in, and a classic bus to 232.1 % |
| `BusPlan.FeedbackScenarios` | docs/DESIGN.zh-CN.md:671-690 | the same joints by broadcast: exactly 39.516 % with polling, 29.432 % with 5 ms heartbeats, and their feedback rates |
| `BusPlan.EightJointScenario` | docs/DESIGN.zh-CN.md:671-690 | with an eighth joint every joint is sent its own frame: exactly 80.576 % |
| `BusPlan.LighterIsCheaper` | jr_ros2/src/rt/jr_bus_plan.cpp:98-195 | load is non-negative, grows with rate, joints and foreign frames, falls with bit rates, heartbeat and poll periods; feasibility is downward closed |
| `BusPlan.MoreJointsCostMoreIff` | jr_ros2/src/rt/jr_bus_plan.cpp:98-174 | with an inferred node id, for every policy: more joints do not lower the load if and only if they leave broadcasting on, or the broadcasts saved took no longer than the unicast and heartbeat frames that come instead |
| `BusPlan.EighthJointCanLowerLoad` | jr_ros2/src/rt/jr_bus_plan.cpp:98-107 | without a configured node id, growing past the broadcast limit can lower the load |
| `BusPlan.PlanConfig` | jr_ros2/src/rt/jr_bus_plan.cpp:260-280 | an accepted bus is always plannable, and broadcasts exactly when no node id is beyond the bitmap |
| `BusPlan.HighestNodeId` | jr_ros2/src/rt/jr_bus_plan.cpp:268-272 | the largest node id of the configured joints |

## Left out

- Weak memory: every interleaving is sequentially consistent; acquire and release orders are not modelled.
- The pause protocol, the mailbox steps, the ring steps and the seqlock are modelled on values, one state per step, because their methods interleave; objects and addresses do not appear there.
- The pause protocol covers internal tick mode and one client thread, which also starts and stops; `step()` in external mode and several clients are not modelled. A failing thread creation in `start()` is left out.
- RingSteps.PoppedIsPrefixOfAccepted: does not model the wrap of the 64-bit indices, which takes 2^64 pushes.
- RingClass.SpscRing.Pop: does not model a null destination, which only skips the copy.
- MailboxSteps.DeliveriesAreWholeAndRising: does not bound how long a reader spins; the debug guards for several writers are left out.
- Seqlock.AcceptedSamplesAreGenuine: is about one joint; the clock values of one read are taken as one.
- TickGroup.CommandsAreConserved: needs the producer's numbering from 1; other numberings are counted by the same code but nothing is promised for them.
- TickGroup.TickGroup.RunCycle: calls into the buses are a log; what a snapshot holds and its publication, run-time statistics, time stamps and sticky notes are left out, and what the hook calls on its writer is a parameter.
- Interpolation.AppliedRateBound: is over reals, without the rounding of doubles; command times are below 2^64 ns.
- Interpolation: the SDK calls are a log; broadcasting of MIT frames (`try_broadcast_mit`) is left out.
- DescCache.Save: assumes an atomic rename and streams that store a prefix of what they were given, and does not model a disk that loses what a successful close put there; path building, directory creation and message texts are left out, the SDK ABI number is a parameter.
- DescCache.Load: does not model a failing allocation for a huge length field; the header itself is not covered by the checksum, so altered metadata is not detected.
- Config.ValidateConfig: the notes text and flags are left out; names are strings without their array; NaN limits are not reals.
- Config: default values, `find_bus` and lock keys would only add easy members.
- JointIndex.SystemInterface.MapJoints: the warning about joints missing from the robot description is left out.
- Param: floating-point types are left out, as are the type names, conversions between types and error texts; characters are those of the C locale.
- BusOps: the SDK is a function from joint and path to an answer for reads, and one answer per item for writes; messages are left out, `save_config` is its status.
- BusPlan: doubles are reals and the rendered texts are left out.
- BusPlan.FrameTimeMonotone: is about a non-zero nominal rate; the code gives 0 for a zero rate, which accepted configurations exclude.
- The ROS node, services, YAML loading, command-line tools, diagnostics, SDK and HAL internals and real-time scheduling are not modelled.
