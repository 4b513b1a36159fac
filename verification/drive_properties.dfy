/** What the drive mode promises, tick by tick and over runs of ticks. */
module DriveProperties {
  import opened AutoDrive

  /** No tick of the input run reports a position signal. */
  predicate NoSignal(ins: seq<TickInput>) {
    forall i :: 0 <= i < |ins| ==> !ins[i].signal
  }

  /** Idle without a signal: nothing changes and nothing is called. */
  lemma IdleWithoutSignalIsInert(s: DriveState, now: Millis, done: bool)
    requires !s.moving
    ensures Step(s, TickInput(false, now, done)) == StepResult(s, [])
  {
  }

  /** Idle with a signal: one tick starts command 0, once, and calls no
      command's `loop`; the watchdog is disarmed. */
  lemma SignalStartsProgram(s: DriveState, now: Millis, done: bool)
    requires !s.moving && s.currentCommand < CommandCount
    ensures Step(s, TickInput(true, now, done)) == StepResult(DriveState(true, 0, 0), [StartCommand(0, now)])
  {
  }

  /** Moving, first tick without a signal: the watchdog is armed with the
      current time, the robot keeps moving and the active command still runs. */
  lemma FirstMissArmsWatchdog(s: DriveState, now: Millis, done: bool)
    requires s.moving && s.currentCommand < CommandCount && s.lostPositionTimestamp == 0
    ensures var r := Step(s, TickInput(false, now, done));
      && r.state.moving
      && r.state.lostPositionTimestamp == now
      && Stop !in r.events
      && r.events[0] == LoopCommand(s.currentCommand, now)
  {
  }

  /** 0 doubles as "not armed", so a miss at time 0 leaves the watchdog
      unarmed and the next miss arms it afresh instead of stopping. */
  lemma ArmingAtZeroDoesNotStick(s: DriveState, later: Millis, done: bool)
    requires s.moving && s.currentCommand < CommandCount && s.lostPositionTimestamp == 0
    ensures var r := Step(s, TickInput(false, 0, done));
      && r.state.lostPositionTimestamp == 0
      && Step(r.state, TickInput(false, later, done)).state.moving
      && Step(r.state, TickInput(false, later, done)).state.lostPositionTimestamp == later
  {
  }

  /** Moving, armed, no signal, timeout reached: the watchdog is disarmed,
      the robot is stopped once, and no command runs. */
  lemma TimeoutStops(s: DriveState, now: Millis, done: bool)
    requires s.moving && s.currentCommand < CommandCount && s.lostPositionTimestamp != 0
    requires Elapsed(now, s.lostPositionTimestamp) >= MissingPositionTimeout
    ensures Step(s, TickInput(false, now, done)) == StepResult(DriveState(false, s.currentCommand, 0), [Stop])
  {
  }

  /** Moving, armed, no signal, within the timeout: the tick does what a
      tick with the signal would do to the command, and the watchdog keeps
      its arming time. */
  lemma GapWithinTimeoutIsTolerated(s: DriveState, now: Millis, done: bool)
    requires s.moving && s.currentCommand < CommandCount && s.lostPositionTimestamp != 0
    requires Elapsed(now, s.lostPositionTimestamp) < MissingPositionTimeout
    ensures var r := Step(s, TickInput(false, now, done));
      var withSignal := Step(s, TickInput(true, now, done));
      && r.state == withSignal.state.(lostPositionTimestamp := s.lostPositionTimestamp)
      && r.events == withSignal.events
  {
  }

  /** The part of the above that a run of misses relies on: the robot keeps
      moving, the arming time is kept, and the tick does not stop the robot. */
  lemma ToleratedMiss(s: DriveState, now: Millis, done: bool)
    requires s.moving && s.currentCommand < CommandCount && s.lostPositionTimestamp != 0
    requires Elapsed(now, s.lostPositionTimestamp) < MissingPositionTimeout
    ensures var r := Step(s, TickInput(false, now, done));
      && r.state.moving
      && r.state.currentCommand < CommandCount
      && r.state.lostPositionTimestamp == s.lostPositionTimestamp
      && Stop !in r.events
  {
  }

  /** A moving tick with the signal, with the watchdog unarmed, or with a gap
      under the timeout keeps the robot moving and calls the active command's
      `loop`; when it reports done the index moves on cyclically and the next
      command is started, otherwise the index stays. */
  lemma ActiveCommandAdvances(s: DriveState, input: TickInput)
    requires s.moving && s.currentCommand < CommandCount
    requires input.signal || s.lostPositionTimestamp == 0
             || Elapsed(input.now, s.lostPositionTimestamp) < MissingPositionTimeout
    ensures var r := Step(s, input);
      r.state.moving &&
      var next := (s.currentCommand + 1) % CommandCount;
      if input.commandDone then
        r.state.currentCommand == next
        && r.events == [LoopCommand(s.currentCommand, input.now), StartCommand(next, input.now)]
      else
        r.state.currentCommand == s.currentCommand
        && r.events == [LoopCommand(s.currentCommand, input.now)]
  {
  }

  /** After the last command of the program reports done, on any tick that
      keeps the robot moving (a signal, or a miss within the timeout, whatever
      the watchdog holds), the index wraps to 0 and the first command is
      started again. */
  lemma LastCommandWrapsToFirst(s: DriveState, input: TickInput)
    requires s.moving && s.currentCommand == CommandCount - 1 && input.commandDone
    requires Step(s, input).state.moving
    ensures Step(s, input).state.currentCommand == 0
    ensures Step(s, input).events == [LoopCommand(CommandCount - 1, input.now), StartCommand(0, input.now)]
  {
  }

  /** Armed at 1000: the tick at 1199 keeps going, the tick at 1200 stops. */
  lemma WatchdogAt200Milliseconds(c: nat, done: bool)
    requires c < CommandCount
    ensures Step(DriveState(true, c, 1000), TickInput(false, 1199, done)).state == DriveState(true, if done then (c + 1) % CommandCount else c, 1000)
    ensures Step(DriveState(true, c, 1000), TickInput(false, 1200, done)) == StepResult(DriveState(false, c, 0), [Stop])
  {
    assert Elapsed(1199, 1000) == 199;
    assert Elapsed(1200, 1000) == 200;
  }

  /** The watchdog uses the wrapped difference, so it still fires across the
      rollover of the 32-bit clock. */
  lemma WatchdogAcrossClockWrap(c: nat, done: bool)
    requires c < CommandCount
    ensures Step(DriveState(true, c, 0xFFFF_FFF0), TickInput(false, 0xB8, done)) == StepResult(DriveState(false, c, 0), [Stop])
  {
    assert Elapsed(0xB8, 0xFFFF_FFF0) == 200;
  }

  /** Without a signal, an idle drive mode stays idle and silent over any
      number of ticks. */
  lemma {:induction false} IdleStaysIdleWithoutSignal(s: DriveState, ins: seq<TickInput>)
    requires !s.moving && NoSignal(ins)
    ensures Run(s, ins) == StepResult(s, [])
  {
    if ins != [] {
      IdleWithoutSignalIsInert(s, ins[0].now, ins[0].commandDone);
      assert NoSignal(ins[1..]) by {
        forall i | 0 <= i < |ins| - 1 ensures !ins[1..][i].signal {
          assert ins[1..][i] == ins[i + 1];
        }
      }
      IdleStaysIdleWithoutSignal(s, ins[1..]);
    }
  }

  /** The robot was stopped exactly once, by the last call of the run. */
  predicate StoppedOnceAtEnd(events: seq<Event>) {
    |events| > 0 && events[|events| - 1] == Stop && Stop !in events[..|events| - 1]
  }

  /** With the watchdog armed, a stretch of ticks without a signal keeps the
      robot moving until the first tick at least the timeout after the
      arming time; that tick stops the robot: the run ends idle and
      disarmed, with exactly one stop, as its last call. */
  lemma {:induction false} SustainedLossStopsOnce(s: DriveState, ins: seq<TickInput>)
    requires s.moving && s.currentCommand < CommandCount && s.lostPositionTimestamp != 0
    requires |ins| > 0 && NoSignal(ins)
    requires forall i :: 0 <= i < |ins| - 1 ==> Elapsed(ins[i].now, s.lostPositionTimestamp) < MissingPositionTimeout
    requires Elapsed(ins[|ins| - 1].now, s.lostPositionTimestamp) >= MissingPositionTimeout
    ensures !Run(s, ins).state.moving && Run(s, ins).state.lostPositionTimestamp == 0
    ensures StoppedOnceAtEnd(Run(s, ins).events)
    decreases |ins|
  {
    var first := Step(s, ins[0]);
    if |ins| == 1 {
      TimeoutStops(s, ins[0].now, ins[0].commandDone);
      assert Run(s, ins) == StepResult(first.state, first.events + []);
    } else {
      assert ins[0] == TickInput(false, ins[0].now, ins[0].commandDone);
      ToleratedMiss(s, ins[0].now, ins[0].commandDone);
      var tail := ins[1..];
      assert NoSignal(tail) by {
        forall i | 0 <= i < |tail| ensures !tail[i].signal {
          assert tail[i] == ins[i + 1];
        }
      }
      forall i | 0 <= i < |tail| - 1
        ensures Elapsed(tail[i].now, first.state.lostPositionTimestamp) < MissingPositionTimeout
      {
        assert tail[i] == ins[i + 1];
      }
      assert tail[|tail| - 1] == ins[|ins| - 1];
      SustainedLossStopsOnce(first.state, tail);
      var rest := Run(first.state, tail);
      ConcatStoppedOnceAtEnd(first.events, rest.events);
    }
  }

  /** Calls without a stop followed by a run that stops once at its end. */
  lemma ConcatStoppedOnceAtEnd(before: seq<Event>, after: seq<Event>)
    requires Stop !in before && StoppedOnceAtEnd(after)
    ensures StoppedOnceAtEnd(before + after)
  {
    var all := before + after;
    assert all[..|all| - 1] == before + after[..|after| - 1];
  }

  /** The whole story from an unarmed watchdog: the first miss (at a
      non-zero time) arms it, and the robot stops exactly once, on the
      first later miss at least the timeout after that. */
  lemma SignalLossFromUnarmedStopsOnce(s: DriveState, ins: seq<TickInput>)
    requires s.moving && s.currentCommand < CommandCount && s.lostPositionTimestamp == 0
    requires |ins| > 1 && NoSignal(ins) && ins[0].now != 0
    requires forall i :: 1 <= i < |ins| - 1 ==> Elapsed(ins[i].now, ins[0].now) < MissingPositionTimeout
    requires Elapsed(ins[|ins| - 1].now, ins[0].now) >= MissingPositionTimeout
    ensures !Run(s, ins).state.moving && Run(s, ins).state.lostPositionTimestamp == 0
    ensures StoppedOnceAtEnd(Run(s, ins).events)
  {
    var first := Step(s, ins[0]);
    assert ins[0] == TickInput(false, ins[0].now, ins[0].commandDone);
    FirstMissArmsWatchdog(s, ins[0].now, ins[0].commandDone);
    var tail := ins[1..];
    assert NoSignal(tail) by {
      forall i | 0 <= i < |tail| ensures !tail[i].signal {
        assert tail[i] == ins[i + 1];
      }
    }
    forall i | 0 <= i < |tail| - 1
      ensures Elapsed(tail[i].now, first.state.lostPositionTimestamp) < MissingPositionTimeout
    {
      assert tail[i] == ins[i + 1];
    }
    assert tail[|tail| - 1] == ins[|ins| - 1];
    SustainedLossStopsOnce(first.state, tail);
    ConcatStoppedOnceAtEnd(first.events, Run(first.state, tail).events);
  }

  /** A tick with a signal whose active command reports done: `loop` then
      `start` of the next command, which becomes the active one. */
  lemma CompletingTick(s: DriveState, now: Millis)
    requires s.moving && s.currentCommand < CommandCount
    ensures var next := (s.currentCommand + 1) % CommandCount;
      Step(s, TickInput(true, now, true))
        == StepResult(DriveState(true, next, 0), [LoopCommand(s.currentCommand, now), StartCommand(next, now)])
  {
  }

  /** Moving on one command and then k more is moving on k + 1. */
  lemma CyclicIndexShift(c: nat, k: nat)
    ensures ((c + 1) % CommandCount + k) % CommandCount == (c + k + 1) % CommandCount
  {
  }

  /** Every tick of the run has a signal and its active command reports done. */
  predicate AllComplete(ins: seq<TickInput>) {
    forall i :: 0 <= i < |ins| ==> ins[i].signal && ins[i].commandDone
  }

  /** The calls of a run of completing ticks from command c: tick j called
      `loop` on the command then active and `start` on the next one. */
  predicate CycledCalls(events: seq<Event>, c: nat, ins: seq<TickInput>) {
    && |events| == 2 * |ins|
    && forall j :: 0 <= j < |ins| ==>
         && events[2 * j] == LoopCommand((c + j) % CommandCount, ins[j].now)
         && events[2 * j + 1] == StartCommand((c + j + 1) % CommandCount, ins[j].now)
  }

  /** The calls of the first completing tick followed by those of the rest. */
  lemma ConcatCycledCalls(c: nat, ins: seq<TickInput>, first: seq<Event>, rest: seq<Event>)
    requires c < CommandCount && ins != []
    requires first == [LoopCommand(c, ins[0].now), StartCommand((c + 1) % CommandCount, ins[0].now)]
    requires CycledCalls(rest, (c + 1) % CommandCount, ins[1..])
    ensures CycledCalls(first + rest, c, ins)
  {
    var all := first + rest;
    forall j | 1 <= j < |ins|
      ensures all[2 * j] == LoopCommand((c + j) % CommandCount, ins[j].now)
      ensures all[2 * j + 1] == StartCommand((c + j + 1) % CommandCount, ins[j].now)
    {
      assert ins[j] == ins[1..][j - 1];
      assert all[2 * j] == rest[2 * (j - 1)];
      assert all[2 * j + 1] == rest[2 * (j - 1) + 1];
      CyclicIndexShift(c, j - 1);
      CyclicIndexShift(c, j);
    }
  }

  /** Ticks with a signal whose commands all report done walk the program
      cyclically: after n of them the index has moved on by n modulo the
      program length, the robot is still moving and was never stopped, and
      each tick ran the active command and started the next one. */
  lemma {:induction false} ProgramCycles(s: DriveState, ins: seq<TickInput>)
    requires s.moving && s.currentCommand < CommandCount
    requires AllComplete(ins)
    ensures Run(s, ins).state.moving
    ensures Run(s, ins).state.currentCommand == (s.currentCommand + |ins|) % CommandCount
    ensures |ins| > 0 ==> Run(s, ins).state.lostPositionTimestamp == 0
    ensures Stop !in Run(s, ins).events
    ensures CycledCalls(Run(s, ins).events, s.currentCommand, ins)
    decreases |ins|
  {
    if ins != [] {
      var c := s.currentCommand;
      var now := ins[0].now;
      assert ins[0] == TickInput(true, now, true);
      CompletingTick(s, now);
      var first := Step(s, ins[0]);
      var tail := ins[1..];
      assert AllComplete(tail) by {
        forall i | 0 <= i < |tail| ensures tail[i].signal && tail[i].commandDone {
          assert tail[i] == ins[i + 1];
        }
      }
      ProgramCycles(first.state, tail);
      var rest := Run(first.state, tail);
      assert Run(s, ins) == StepResult(rest.state, first.events + rest.events);
      CyclicIndexShift(c, |tail|);
      ConcatCycledCalls(c, ins, first.events, rest.events);
    }
  }

  /** A two-command program driven through three full loops from idle:
      the start tick plus six completing ticks. The first tick starts
      command 0; each later tick runs the active command and starts the
      next; the run ends back at command 0, having started it again, and the
      robot was never stopped. */
  lemma ThreeFullLoops(ins: seq<TickInput>)
    requires |ins| == 7 && ins[0].signal && AllComplete(ins[1..])
    ensures Run(Idle, ins).state == DriveState(true, 0, 0)
    ensures Stop !in Run(Idle, ins).events
    ensures |Run(Idle, ins).events| == 13
    ensures Run(Idle, ins).events[0] == StartCommand(0, ins[0].now)
    ensures CycledCalls(Run(Idle, ins).events[1..], 0, ins[1..])
    ensures Run(Idle, ins).events[12] == StartCommand(0, ins[6].now)
  {
    assert ins[0] == TickInput(true, ins[0].now, ins[0].commandDone);
    SignalStartsProgram(Idle, ins[0].now, ins[0].commandDone);
    var first := Step(Idle, ins[0]);
    var tail := ins[1..];
    ProgramCycles(first.state, tail);
    var rest := Run(first.state, tail);
    var all := first.events + rest.events;
    assert Run(Idle, ins) == StepResult(rest.state, all);
    assert all[1..] == rest.events;
    assert tail[5] == ins[6];
    assert rest.events[2 * 5 + 1] == StartCommand((0 + 5 + 1) % CommandCount, tail[5].now);
  }
}
