/** The autonomous drive mode: a tick-driven state machine that starts the
    command program when the robot has a position fix, advances the active
    command cyclically, and stops the robot when the fix has been missing for
    too long. The position signal, the clock and each command's `loop`
    result are inputs of a tick; the calls the mode makes on the commands and
    on the robot are recorded as events. */
module AutoDrive {
  import opened Geometry
  import opened Paths

  /** A reading of the millisecond clock: an `unsigned long`, 32 bits wide on
      the robot's board. */
  type Millis = t: int | 0 <= t < ClockModulus

  const ClockModulus: int := 0x1_0000_0000

  /** How long the position may be missing before the robot is stopped. */
  const MissingPositionTimeout: Millis := 200

  /** Milliseconds elapsed from `since` to `now`, as the unsigned
      subtraction computes it: modulo 2^32 when the clock has wrapped. */
  function Elapsed(now: Millis, since: Millis): (d: Millis)
    ensures d == (now - since) % ClockModulus
    ensures since + d == now || since + d == now + ClockModulus
  {
    if since <= now then now - since else now - since + ClockModulus
  }

  /** Number of commands in the program. */
  const CommandCount: nat := 2

  /** The commands of the program, in order; their behaviour is not modelled. */
  datatype CommandKind = SyncWithPreamble | FollowPath

  /** What a tick does to the outside world. */
  datatype Event =
    | StartCommand(index: nat, at: Millis)   // commands[index]->start(at)
    | LoopCommand(index: nat, at: Millis)    // commands[index]->loop(at)
    | Stop                                   // zippy->stop()

  /** The fields the tick updates. A `lostPositionTimestamp` of 0 means the
      watchdog is not armed. */
  datatype DriveState = DriveState(moving: bool, currentCommand: nat, lostPositionTimestamp: Millis)

  /** What a tick observes: whether the lighthouse reports a position, the
      clock, and what the active command's `loop` returns if it is called. */
  datatype TickInput = TickInput(signal: bool, now: Millis, commandDone: bool)

  datatype StepResult = StepResult(state: DriveState, events: seq<Event>)

  const Idle := DriveState(false, 0, 0)

  /** One tick of the drive mode. */
  function Step(s: DriveState, input: TickInput): (r: StepResult)
    // the command index stays within the program
    ensures s.currentCommand < CommandCount ==> r.state.currentCommand < CommandCount
    // a tick with the position signal disarms the watchdog
    ensures s.currentCommand < CommandCount && input.signal ==> r.state.lostPositionTimestamp == 0
    // the robot is stopped exactly on the ticks that leave the moving state, and then nothing else happens
    ensures r.events == [Stop] <==> s.moving && !r.state.moving
    ensures Stop in r.events ==> r.events == [Stop]
    // the watchdog's timeout is the only way out of the moving state
    ensures s.moving ==>
      (!r.state.moving <==>
         s.currentCommand < CommandCount && !input.signal && s.lostPositionTimestamp != 0
         && Elapsed(input.now, s.lostPositionTimestamp) >= MissingPositionTimeout)
    // motion starts only with a position signal, and then from the first command
    ensures !s.moving && r.state.moving ==>
      input.signal && r.state.currentCommand == 0 && r.events == [StartCommand(0, input.now)]
  {
    if s.currentCommand >= CommandCount then StepResult(s, [])
    else if !input.signal && !s.moving then StepResult(s, [])
    else if !input.signal && s.lostPositionTimestamp != 0
         && Elapsed(input.now, s.lostPositionTimestamp) >= MissingPositionTimeout then
      StepResult(DriveState(false, s.currentCommand, 0), [Stop])
    else
      var lost :=
        if input.signal then 0
        else if s.lostPositionTimestamp == 0 then input.now
        else s.lostPositionTimestamp;
      if !s.moving then
        StepResult(DriveState(true, 0, lost), [StartCommand(0, input.now)])
      else if input.commandDone then
        var next := (s.currentCommand + 1) % CommandCount;
        StepResult(DriveState(true, next, lost),
                   [LoopCommand(s.currentCommand, input.now), StartCommand(next, input.now)])
      else
        StepResult(DriveState(true, s.currentCommand, lost), [LoopCommand(s.currentCommand, input.now)])
  }

  /** A run of consecutive ticks: the final state and every event, in order. */
  function Run(s: DriveState, ins: seq<TickInput>): (r: StepResult)
    ensures s.currentCommand < CommandCount ==> r.state.currentCommand < CommandCount
    decreases |ins|
  {
    if ins == [] then StepResult(s, [])
    else
      var first := Step(s, ins[0]);
      var rest := Run(first.state, ins[1..]);
      StepResult(rest.state, first.events + rest.events)
  }

  class AutoDriveMode {
    var moving: bool
    var currentCommand: nat
    var lostPositionTimestamp: Millis
    /** The path handed to the path-following command. */
    const pathPoints: array<Point>
    const commands: seq<CommandKind>
    /** Every call made on the commands and on the robot so far. */
    ghost var trace: seq<Event>

    ghost function State(): DriveState
      reads this
    {
      DriveState(moving, currentCommand, lostPositionTimestamp)
    }

    /** Builds the path from the table for the role, and the program: first
        synchronise, then follow the path. */
    constructor (table: seq<Point>, role: Role)
      ensures State() == Idle && trace == []
      ensures fresh(pathPoints) && pathPoints[..] == BuildPath(table, role)
      ensures commands == [SyncWithPreamble, FollowPath]
    {
      var points := new Point[|table|](i => if 0 <= i < |table| then table[i] else Point(0.0, 0.0));
      assert points[..] == table;
      PlaceInPlace(points, role);
      if role == Follower {
        ReverseInPlace(points);
      }
      lostPositionTimestamp := 0;
      moving := false;
      currentCommand := 0;
      pathPoints := points;
      commands := [SyncWithPreamble, FollowPath];
      trace := [];
    }

    /** One control tick. */
    method Loop(signal: bool, now: Millis, commandDone: bool)
      modifies this
      ensures State() == Step(old(State()), TickInput(signal, now, commandDone)).state
      ensures trace == old(trace) + Step(old(State()), TickInput(signal, now, commandDone)).events
      ensures old(currentCommand) < CommandCount ==> currentCommand < CommandCount
    {
      if currentCommand >= CommandCount {
        return;
      }
      var currentTime := now;
      if !signal {
        if !moving {
          return;
        }
        if lostPositionTimestamp == 0 {
          lostPositionTimestamp := currentTime;
        } else if Elapsed(currentTime, lostPositionTimestamp) >= MissingPositionTimeout {
          lostPositionTimestamp := 0;
          trace := trace + [Stop];
          moving := false;
          return;
        }
      } else {
        lostPositionTimestamp := 0;
      }

      if !moving {
        moving := true;
        currentCommand := 0;
        trace := trace + [StartCommand(0, currentTime)];
        return;
      }

      trace := trace + [LoopCommand(currentCommand, currentTime)];
      if commandDone {
        currentCommand := (currentCommand + 1) % CommandCount;
        trace := trace + [StartCommand(currentCommand, currentTime)];
      }
    }
  }
}
