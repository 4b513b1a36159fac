# Zippies autonomous drive: a Dafny model

This project models the autonomous drive controller of the Zippies robot
firmware and proves properties of that model. It covers two parts:

- **`AutoDriveMode`**: the tick-driven state machine. It starts the command
  program when the lighthouse reports a position fix, runs the active command
  and moves cyclically through the program as commands complete. A
  missing-position watchdog stops the robot after 200 ms without a fix. The
  constructor also builds the path: it scales and translates the way-point
  table, offsets it by the formation spacing, and for the flipped role
  reverses it in place.
- **`LinearMove`**: a straight-line motion command. `start` captures the
  starting pose, fixes the heading towards the target and returns the
  configured duration. `update` interpolates x and y linearly in a
  normalized time and commands that position with the fixed heading.

Files:

- `geometry.dfy` (module `Geometry`): `Point` (KVector2) and `Pose` (KPosition).
- `linear_move.dfy` (module `LinearMoves`): `Interpolate`, its lemmas, and the
  class `LinearMove`.
- `paths.dfy` (module `Paths`): the placement map, `Reversed`, `BuildPath`,
  the two in-place loops of the constructor, and their lemmas.
- `auto_drive.dfy` (module `AutoDrive`):
  - `Step` is one tick as a function. It takes the three fields, the signal
    flag, the clock and the active command's `loop` result, and returns the
    new fields and the calls made (`StartCommand`, `LoopCommand`, `Stop`).
  - `Run` is a sequence of ticks.
  - The class `AutoDriveMode` has the fields `moving`, `currentCommand` and
    `lostPositionTimestamp`, and a ghost `trace` of calls. Its `Loop` method
    is proved against `Step`.
- `drive_properties.dfy` (module `DriveProperties`): what the drive mode
  promises, one tick at a time and over runs of ticks.

The model follows the firmware's code on these points, where a looser
reading might differ:

- The watchdog's "no timestamp" state is the value 0, not a separate null.
  So a miss at clock value 0 does not arm it (`ArmingAtZeroDoesNotStick`).
- The clock is a 32-bit `unsigned long` whose differences wrap around. It is
  not an unbounded monotonic counter, so the model needs no non-decreasing
  clock.
- An empty way-point table is not rejected: the loops simply do nothing.
- The role is chosen by a preprocessor flag, which is not defined in
  AutoDriveMode.cpp (line 11 is commented out), so the firmware builds the
  Leader. Here it is a constructor parameter, so both roles are proved.

## Model

| member | source | states |
|---|---|---|
| `LinearMoves.Interpolate` | PlatformIO/src/commands/LinearMove.h:30-36 | at normalized time 0 the commanded position is the start, at 1 the target, and for times in [0, 1] each axis lies between the start and target values |
| `LinearMoves.MidpointAtHalfTime` | PlatformIO/src/commands/LinearMove.h:31-34 | at time 0.5 the commanded position is the midpoint on both axes |
| `LinearMoves.AxesAreIndependent` | PlatformIO/src/commands/LinearMove.h:31-34 | commanded x depends only on the x coordinates of start and target; y only on the y coordinates |
| `LinearMoves.ProgressIsProportional` | PlatformIO/src/commands/LinearMove.h:31-34 | between two normalized times the position moves by the elapsed fraction of the whole displacement, on each axis |
| `LinearMoves.LinearMove.constructor` | PlatformIO/src/commands/LinearMove.h:18-21 | stores the target point and the execution time; the move is not yet started |
| `LinearMoves.LinearMove.Start` | PlatformIO/src/commands/LinearMove.h:23-28 | captures the starting position, sets the heading (computed by `HeadingTowards`, lines 25-26) to atan2(target x − start x, target y − start y), and returns exactly the configured execution time, whatever the pose |
| `LinearMoves.LinearMove.Update` | PlatformIO/src/commands/LinearMove.h:30-36 | reads only: the commanded heading is the stored heading for every time; the position is the interpolation, so it is the start at 0 and the target at 1 |
| `LinearMoves.RunSegment` | PlatformIO/src/commands/LinearMove.h:18-36 | a move started from a pose reports the configured duration, commands that pose's position first and the target last, with one heading throughout |
| `Paths.Reversed` | PlatformIO/src/AutoDriveMode.cpp:122-128 | reversal keeps the number of points |
| `Paths.ReversedAt` | PlatformIO/src/AutoDriveMode.cpp:122-128 | entry k of the reversed path is entry N−1−k of the original |
| `Paths.ReversedTwice` | PlatformIO/src/AutoDriveMode.cpp:122-128 | reversing twice restores the original order |
| `Paths.MiddleStaysPut` | PlatformIO/src/AutoDriveMode.cpp:122-128 | for an odd number of points the middle point keeps its place |
| `Paths.FigureEightMiddleStaysPut` | PlatformIO/src/AutoDriveMode.cpp:10 | with the firmware's 37 points, the reversal leaves point 18 in place |
| `Paths.PlaceInjective` | PlatformIO/src/AutoDriveMode.cpp:112-120 | the placement is injective for either role: two different table points never land on the same path point |
| `Paths.PlacementByRole` | PlatformIO/src/AutoDriveMode.cpp:112-120 | `Place` (lines 114-119: `ScaleToField`, then `SpacingOffset`) maps, for the Leader, (x, y) to (x·1100 − 60, y·900 − 2750 − 60); the Follower uses +60 on both axes |
| `Paths.BuildPathAt` | PlatformIO/src/AutoDriveMode.cpp:112-128 | `BuildPath` (placement, then reversal for the Follower) has one point per table point; the Leader's point k is table point k placed; the Follower's is table point N−1−k placed |
| `Paths.FollowerMirrorsLeader` | PlatformIO/src/AutoDriveMode.cpp:112-128 | the Follower's path is the Leader's path shifted by twice the spacing on both axes and reversed |
| `Paths.PlaceInPlace` | PlatformIO/src/AutoDriveMode.cpp:112-120 | the in-place loop leaves the array equal to `PlacePath` of its old contents: every entry placed for the role, in the same order |
| `Paths.ReverseInPlace` | PlatformIO/src/AutoDriveMode.cpp:122-128 | the pairwise swap loop over i < N/2 leaves the array equal to the reverse of its old contents |
| `AutoDrive.Elapsed` | PlatformIO/src/AutoDriveMode.cpp:288 | the unsigned difference is (now − since) mod 2^32: the forward distance from the arming time to now on the 32-bit clock, wrapping once if the clock rolled over |
| `AutoDrive.Step` | PlatformIO/src/AutoDriveMode.cpp:273-315 | the command index stays below the command count; a tick with the signal disarms the watchdog; the robot is stopped exactly on the ticks that leave the moving state, and then nothing else is called; a moving robot leaves the moving state if and only if the position is missing, the watchdog is armed and 200 ms or more have elapsed; motion starts only with the signal, at command 0, with one start of command 0 |
| `AutoDrive.Run` | PlatformIO/src/AutoDriveMode.cpp:275-313 | over any number of ticks the command index stays below the command count |
| `AutoDrive.AutoDriveMode.constructor` | PlatformIO/src/AutoDriveMode.cpp:27-141 | starts idle with index 0 and an unarmed watchdog; the path array is the built path for the role; the program is [SyncWithPreamble, FollowPath] |
| `AutoDrive.AutoDriveMode.Loop` | PlatformIO/src/AutoDriveMode.cpp:273-315 | the new fields and the calls appended to the trace are those of `Step`; an index below the command count stays below it |
| `DriveProperties.IdleWithoutSignalIsInert` | PlatformIO/src/AutoDriveMode.cpp:280-282 | idle and no signal: no field changes and nothing is called |
| `DriveProperties.SignalStartsProgram` | PlatformIO/src/AutoDriveMode.cpp:297-305 | idle with the signal: moving, index 0, watchdog disarmed, exactly one call, `start` of command 0, and no `loop` |
| `DriveProperties.FirstMissArmsWatchdog` | PlatformIO/src/AutoDriveMode.cpp:286-309 | moving, first miss: the watchdog is armed with the current time, no stop, still moving, and the active command's `loop` is called |
| `DriveProperties.ArmingAtZeroDoesNotStick` | PlatformIO/src/AutoDriveMode.cpp:286-287 | a miss at clock 0 leaves the watchdog unarmed; the next miss arms it at its own time and does not stop |
| `DriveProperties.TimeoutStops` | PlatformIO/src/AutoDriveMode.cpp:288-295 | moving, armed, no signal, elapsed ≥ 200: watchdog disarmed, not moving, index unchanged, exactly one `stop` and no command call |
| `DriveProperties.ToleratedMiss` | PlatformIO/src/AutoDriveMode.cpp:286-309 | moving, armed, no signal, elapsed < 200: still moving, arming time kept, no stop |
| `DriveProperties.GapWithinTimeoutIsTolerated` | PlatformIO/src/AutoDriveMode.cpp:286-313 | such a tick does to the command exactly what a tick with the signal would do; only the watchdog differs |
| `DriveProperties.ActiveCommandAdvances` | PlatformIO/src/AutoDriveMode.cpp:284-313 | a moving tick with the signal, an unarmed watchdog or a gap under 200 ms keeps moving and calls the active command's `loop`; if it reports done the index becomes (index + 1) mod 2 and that command is started, otherwise the index stays |
| `DriveProperties.CompletingTick` | PlatformIO/src/AutoDriveMode.cpp:309-313 | with the signal and a completing command: `loop` of the active command, then `start` of the next, which becomes active |
| `DriveProperties.LastCommandWrapsToFirst` | PlatformIO/src/AutoDriveMode.cpp:284-313 | whatever the watchdog holds, a tick that keeps the robot moving (a signal, or a miss within 200 ms) while the last command reports done wraps the index to 0, calls `loop` on the last command and `start` on command 0 |
| `DriveProperties.WatchdogAt200Milliseconds` | PlatformIO/src/AutoDriveMode.cpp:286-295 | armed at 1000: the tick at 1199 keeps moving, the tick at 1200 stops once |
| `DriveProperties.WatchdogAcrossClockWrap` | PlatformIO/src/AutoDriveMode.cpp:288 | armed 16 ms before the 32-bit clock rolls over, the tick 200 ms later (after the rollover) stops |
| `DriveProperties.IdleStaysIdleWithoutSignal` | PlatformIO/src/AutoDriveMode.cpp:280-282 | over any number of ticks without a signal an idle drive mode changes nothing and calls nothing |
| `DriveProperties.SustainedLossStopsOnce` | PlatformIO/src/AutoDriveMode.cpp:284-295 | with the watchdog armed, misses within 200 ms keep moving; the first miss at ≥ 200 ms ends the run idle and disarmed, with exactly one `stop`, as the last call |
| `DriveProperties.SignalLossFromUnarmedStopsOnce` | PlatformIO/src/AutoDriveMode.cpp:284-295 | from an unarmed watchdog, the first miss (at a non-zero time) arms it, and the robot stops exactly once, 200 ms or more later |
| `DriveProperties.ProgramCycles` | PlatformIO/src/AutoDriveMode.cpp:309-313 | n completing ticks with the signal move the index on by n mod 2, never stop, and tick j calls `loop` on command (c + j) mod 2 and `start` on (c + j + 1) mod 2 |
| `DriveProperties.ThreeFullLoops` | PlatformIO/src/AutoDriveMode.cpp:297-313 | from idle, one starting tick and six completing ticks run the two-command program three times: the run ends at command 0, which it has just started again, with no stop |

## Left out

- The internals of `SyncWithPreamble` and `FollowPath` are not part of this model. Commands are opaque: a command's `loop` result is an input of the tick. `start` and `loop` calls are recorded as events. The duration `start` returns is dropped, as the drive mode drops it.
- The hardware and clock calls `millis()`, `hasLighthouseSignal()`, `stop()` and `move()` are not modelled. The first two are tick inputs; `stop()` is a recorded event. `LinearMove.Update` returns the pose that the firmware passes to `move()`.
- Floating point is not modelled: `double` arithmetic is over `real`, so the exact endpoint equalities hold in the model but not necessarily in doubles. `atan2` is a function parameter about which nothing is assumed.
- `LinearMove` keeps a pointer to the starting pose. The model captures the pose by value at `start`, which relies on the caller keeping the pointee unchanged during the move.
- The normalized time `atNormalizedTime` is passed to `update` by its caller, which is not part of this model. No code modelled here clamps it. `Update` takes any real value, and outside [0, 1] it extrapolates along the line, as the firmware's arithmetic does.
- The 37 values of the figure-8 table are not modelled. The constructor takes any table, and the transform and reversal are proved for every table.
- The role is a compile-time flag in the firmware. Here it is a constructor parameter.
- Commented-out rectangle/circle tables, Bezier and spline code, and the empty `computeControlPoints` are dead code and not modelled. The same holds for the empty `stopMoving` and for the destructor, which only frees memory.
- The iOS client's drawing code (`ZDrawable.swift`) is rendering only and is not modelled.
