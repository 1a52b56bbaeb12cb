/** The coroutine of the timed blind: a position that follows the run time of the motor. */
module TimedBlind {
  import opened SystemTime

  /** Times in milliseconds. */
  datatype Config = Config(holdTime: nat, maxPosition: nat)

  datatype Message =
    | Rocker(value: nat)              // plug 0: released, up, down
    | Trigger(value: nat)             // plug 1: released, pressed
    | Position(step: bool, p: int)    // plug 2: a fraction of the run time, set or added
    | EnableDown(value: nat)          // plug 3

  datatype Event = Timeout | Received(message: Message)

  /** The local variables of the coroutine; the state is 0 stopped, 1 up, 2 down. */
  datatype Blind = Blind(state: nat, up: bool, enableDown: nat, position: int, target: int, startTime: int, lastTime: int)

  const STEP: nat := 200

  function Initial(c: Config, startTime: int, lastTime: int): Blind {
    Blind(0, false, 1, c.maxPosition / 2, 0, startTime, lastTime)
  }

  /** The distance in the direction of motion; negative when the target has been moved behind the position. */
  function Ahead(b: Blind): int {
    if b.up then b.position - b.target else b.target - b.position
  }

  /** The position after moving for the given time, which ends at the target. */
  function Approach(b: Blind, elapsed: int): int {
    if b.up then
      if b.position - elapsed <= b.target then b.target else b.position - elapsed
    else
      if b.position + elapsed >= b.target then b.target else b.position + elapsed
  }

  function Move(b: Blind, now: int): Blind {
    if b.state == 0 then b
    else b.(position := Approach(b, Diff(now, b.lastTime)), lastTime := now)
  }

  /** The target that a pressed rocker or trigger sets when the blind is stopped. */
  function PressedTarget(c: Config, b: Blind, m: Message): int
    requires m.Rocker? || m.Trigger?
  {
    if m.Trigger? then
      if (b.up || b.target == 0) && b.target < c.maxPosition then c.maxPosition else 0
    else if m.value == 1 then 0
    else c.maxPosition
  }

  function Clamp(c: Config, p: int): int {
    if p < 0 then 0 else if p > c.maxPosition then c.maxPosition else p
  }

  function React(c: Config, b: Blind, m: Message, now: int): Blind {
    match m
    case EnableDown(value) => b.(enableDown := value)
    case Position(step, p) => b.(target := if step then b.target + p else Clamp(c, p))
    case Rocker(value) => b.(target := ButtonTarget(c, b, m, now))
    case Trigger(value) => b.(target := ButtonTarget(c, b, m, now))
  }

  function ButtonTarget(c: Config, b: Blind, m: Message, now: int): int
    requires m.Rocker? || m.Trigger?
  {
    if m.value == 0 then
      // released: stop if the hold time has elapsed
      if Diff(now, b.startTime + c.holdTime) > 0 then b.position else b.target
    else if b.state == 0 then PressedTarget(c, b, m)
    else b.position
  }

  /** Holds a blind that must not go down, and stops or starts the motor. */
  function Settle(b: Blind, now: int): Blind {
    var b := if b.enableDown == 0 && b.target > b.position then b.(target := b.position) else b;
    if b.position == b.target then b.(state := 0)
    else if b.state == 0 then
      var up := b.target < b.position;
      b.(up := up, state := if up then 1 else 2, lastTime := now, startTime := now)
    else b
  }

  /** One turn of the loop; a stopped blind only wakes up for messages. */
  function Turn(c: Config, b: Blind, e: Event, now: int): Blind {
    var moved := Move(b, now);
    Settle(if e.Timeout? then moved else React(c, moved, e.message, now), now)
  }

  /** The coroutine object; Wake is one turn of its loop. */
  class Coroutine {
    const config: Config
    var state: nat
    var up: bool
    var enableDown: nat
    var position: int
    var targetPosition: int
    var startTime: int
    var lastTime: int

    ghost function Model(): Blind
      reads this
    {
      Blind(state, up, enableDown, position, targetPosition, startTime, lastTime)
    }

    constructor (config: Config, startTime: int, lastTime: int)
      ensures this.config == config && Model() == Initial(config, startTime, lastTime)
    {
      this.config := config;
      state, up, enableDown := 0, false, 1;
      position, targetPosition := config.maxPosition / 2, 0;
      this.startTime, this.lastTime := startTime, lastTime;
    }

    /** How long a moving blind sleeps. */
    method SleepTime() returns (d: int)
      ensures d == SleepFor(Model())
    {
      d := targetPosition - position;
      if up {
        d := -d;
      }
      if d > 200 {
        d := 200;
      }
    }

    method Wake(e: Event, now: int) returns (published: nat)
      modifies this
      ensures Model() == Turn(config, old(Model()), e, now) && published == state
    {
      if state != 0 {
        var d := Diff(now, lastTime);
        lastTime := now;
        if up {
          position := position - d;
          if position <= targetPosition {
            position := targetPosition;
          }
        } else {
          position := position + d;
          if position >= targetPosition {
            position := targetPosition;
          }
        }
      }
      if e.Received? {
        Process(e.message, now);
      }
      if enableDown == 0 && targetPosition > position {
        targetPosition := position;
      }
      if position == targetPosition {
        state := 0;
      } else if state == 0 {
        up := targetPosition < position;
        state := if up then 1 else 2;
        lastTime, startTime := now, now;
      }
      published := state;
    }

    method Process(m: Message, now: int)
      modifies this`targetPosition, this`enableDown
      ensures Model() == React(config, old(Model()), m, now)
    {
      match m
      case EnableDown(value) =>
        enableDown := value;
      case Position(step, p) =>
        if step {
          targetPosition := targetPosition + p;
        } else {
          targetPosition := p;
          if targetPosition < 0 {
            targetPosition := 0;
          }
          if targetPosition > config.maxPosition {
            targetPosition := config.maxPosition;
          }
        }
      case Rocker(_) =>
        Press(m, now);
      case Trigger(_) =>
        Press(m, now);
    }

    method Press(m: Message, now: int)
      requires m.Rocker? || m.Trigger?
      modifies this`targetPosition
      ensures targetPosition == ButtonTarget(config, old(Model()), m, now)
    {
      if m.value == 0 {
        if Diff(now, startTime + config.holdTime) > 0 {
          targetPosition := position;
        }
      } else if state != 0 {
        targetPosition := position;
      } else if m.Trigger? {
        targetPosition := if (up || targetPosition == 0) && targetPosition < config.maxPosition then config.maxPosition else 0;
      } else if m.value == 1 {
        targetPosition := 0;
      } else {
        targetPosition := config.maxPosition;
      }
    }
  }

  // ----- one turn

  /** After every turn the blind is stopped exactly at its target, and otherwise runs in the direction it shows. */
  ghost predicate Settled(b: Blind) {
    && b.state <= 2
    && (b.state == 0 <==> b.position == b.target)
    && (b.state != 0 ==> (b.state == 1 <==> b.up))
  }

  /** The motor runs toward the target. */
  ghost predicate Toward(b: Blind) {
    b.state != 0 ==> Ahead(b) > 0
  }

  ghost predicate InRange(c: Config, b: Blind) {
    0 <= b.position <= c.maxPosition && 0 <= b.target <= c.maxPosition
  }

  lemma TurnSettles(c: Config, b: Blind, e: Event, now: int)
    requires Settled(b) || b.state == 0
    ensures Settled(Turn(c, b, e, now))
  {
  }

  /** A turn without a position message keeps the target ahead of a running motor. */
  lemma TurnKeepsDirection(c: Config, b: Blind, e: Event, now: int)
    requires (Settled(b) && Toward(b)) || b.state == 0
    requires e.Timeout? || !e.message.Position?
    requires b.state != 0 ==> Diff(now, b.lastTime) >= 0
    ensures Toward(Turn(c, b, e, now))
  {
  }

  /** While the motor runs toward the target, the position changes by the elapsed time or reaches the target. */
  lemma TurnDistance(c: Config, b: Blind, e: Event, now: int)
    requires b.state != 0 && Settled(b) && Toward(b) && Diff(now, b.lastTime) >= 0
    ensures var d := Diff(now, b.lastTime); var travelled := if d < Ahead(b) then d else Ahead(b);
            Turn(c, b, e, now).position == if b.up then b.position - travelled else b.position + travelled
  {
  }

  /** Going down is never shown while it is disabled. */
  ghost predicate DownIsEnabled(b: Blind) {
    b.state == 2 ==> b.enableDown != 0
  }

  lemma TurnKeepsDownEnabled(c: Config, b: Blind, e: Event, now: int)
    requires (Settled(b) || b.state == 0) && DownIsEnabled(b)
    requires b.state != 0 ==> Diff(now, b.lastTime) >= 0
    ensures DownIsEnabled(Turn(c, b, e, now))
  {
  }

  // ----- what each message does

  /** The position that a blind has reached, in the direction in which it moves. */
  lemma ReachedPosition(c: Config, b: Blind, e: Event, now: int)
    ensures var p, d := Turn(c, b, e, now).position, Diff(now, b.lastTime);
            && (b.state == 0 ==> p == b.position)
            && (b.state != 0 && b.up ==> p == if b.position - d <= b.target then b.target else b.position - d)
            && (b.state != 0 && !b.up ==> p == if b.position + d >= b.target then b.target else b.position + d)
  {
  }

  /** Whatever happens, a blind that must not go down is held at its position when its target is below. */
  ghost predicate HeadsFor(b: Blind, after: Blind, target: int) {
    after.target == if after.enableDown == 0 && target > after.position then after.position else target
  }

  /** Nothing new, and the target stays. */
  lemma TimeoutLaw(c: Config, b: Blind, now: int)
    ensures var t := Turn(c, b, Timeout, now); HeadsFor(b, t, b.target) && t.enableDown == b.enableDown
  {
  }

  /** A press of rocker or trigger stops a moving blind where it is. */
  lemma PressStops(c: Config, b: Blind, m: Message, now: int)
    requires (m.Rocker? || m.Trigger?) && m.value != 0 && b.state != 0
    ensures var t := Turn(c, b, Received(m), now);
            t.state == 0 && t.target == t.position == Turn(c, b, Timeout, now).position && t.enableDown == b.enableDown
  {
  }

  /** Rocker up sends a stopped blind to 0, rocker down to its lowest position. */
  lemma RockerLaw(c: Config, b: Blind, v: nat, now: int)
    requires v != 0 && b.state == 0
    ensures var t := Turn(c, b, Received(Rocker(v)), now);
            HeadsFor(b, t, if v == 1 then 0 else c.maxPosition) && t.position == b.position && t.enableDown == b.enableDown
  {
  }

  /** The trigger sends a stopped blind away from the end at which it is, and from between back where it came from. */
  lemma TriggerLaw(c: Config, b: Blind, v: nat, now: int)
    requires v != 0 && b.state == 0 && 0 <= b.target <= c.maxPosition && c.maxPosition > 0
    ensures var t := Turn(c, b, Received(Trigger(v)), now);
            && (b.target == 0 ==> HeadsFor(b, t, c.maxPosition))
            && (b.target == c.maxPosition ==> HeadsFor(b, t, 0))
            && (0 < b.target < c.maxPosition ==> HeadsFor(b, t, if b.up then c.maxPosition else 0))
            && t.position == b.position && t.enableDown == b.enableDown
  {
  }

  /** A release stops the blind exactly if the hold time has passed since it started. */
  lemma ReleaseLaw(c: Config, b: Blind, m: Message, now: int)
    requires (m.Rocker? || m.Trigger?) && m.value == 0
    ensures var t := Turn(c, b, Received(m), now);
            && (Diff(now, b.startTime + c.holdTime) > 0 ==> t.state == 0 && t.target == t.position)
            && (Diff(now, b.startTime + c.holdTime) <= 0 ==> HeadsFor(b, t, b.target))
            && t.enableDown == b.enableDown
  {
  }

  /** In true times: the blind started at one time, and the release comes later by more than the hold time or not. */
  lemma HoldTimePassed(c: Config, started: int, now: int)
    requires -HALF <= now - (started + c.holdTime) < HALF
    ensures Diff(Register(now), Register(started) + c.holdTime) > 0 <==> now - started > c.holdTime
  {
    DiffIsElapsed(now, started + c.holdTime);
    var x := Register(started) + c.holdTime;
    assert Register(x) == Register(started + c.holdTime) by {
      Periodic(started + c.holdTime, -(started / WRAP));
      assert x == started + c.holdTime + WRAP * -(started / WRAP);
    }
    SameRegister(Register(now), x);
  }

  lemma SameRegister(a: int, b: int)
    ensures Diff(a, Register(b)) == Diff(a, b)
  {
    Periodic(a - b, b / WRAP);
    assert a - Register(b) == a - b + WRAP * (b / WRAP);
  }

  /** A position message sets the target, within the range, or moves it. */
  lemma PositionLaw(c: Config, b: Blind, step: bool, p: int, now: int)
    ensures var t := Turn(c, b, Received(Position(step, p)), now);
            && (step ==> HeadsFor(b, t, b.target + p))
            && (!step && p < 0 ==> HeadsFor(b, t, 0))
            && (!step && p > c.maxPosition ==> HeadsFor(b, t, c.maxPosition))
            && (!step && 0 <= p <= c.maxPosition ==> HeadsFor(b, t, p))
            && t.enableDown == b.enableDown
  {
  }

  /** Going down is enabled or disabled at once. */
  lemma EnableLaw(c: Config, b: Blind, v: nat, now: int)
    ensures var t := Turn(c, b, Received(EnableDown(v)), now);
            t.enableDown == v && HeadsFor(b, t, b.target) && (v == 0 && b.target > t.position ==> t.state == 0)
  {
  }

  /** The motor: a stopped blind starts toward a target elsewhere and notes the time; a moving one keeps its direction. */
  lemma MotorLaw(c: Config, b: Blind, e: Event, now: int)
    ensures var t := Turn(c, b, e, now);
            && (t.position == t.target ==> t.state == 0 && t.up == b.up && t.startTime == b.startTime)
            && (t.position != t.target && b.state != 0 ==>
                  t.state == b.state && t.up == b.up && t.lastTime == now && t.startTime == b.startTime)
            && (t.position != t.target && b.state == 0 ==>
                  t.state == (if t.target < t.position then 1 else 2) && t.up == (t.target < t.position)
                  && t.lastTime == t.startTime == now)
  {
  }

  /** The target that a position message asks for. */
  function NewTarget(c: Config, b: Blind, m: Message): int
    requires m.Position?
  {
    if m.step then b.target + m.p else Clamp(c, m.p)
  }

  /**
   * A turn takes position and target out of range exactly when a position message asks for a target below the range, or above
   * it while going down is not disabled; the clamping leaves that to steps.
   */
  lemma RangeLostExactly(c: Config, b: Blind, e: Event, now: int)
    requires InRange(c, b) && (b.state != 0 ==> Diff(now, b.lastTime) >= 0)
    ensures !InRange(c, Turn(c, b, e, now)) <==>
              e.Received? && e.message.Position? &&
              var target := NewTarget(c, b, e.message); target < 0 || (target > c.maxPosition && b.enableDown != 0)
    ensures e.Received? && e.message.Position? && !e.message.step ==> 0 <= NewTarget(c, b, e.message) <= c.maxPosition
  {
  }

  /** A running motor loses its direction exactly when a position message moves the target behind the blind. */
  lemma TargetBehindExactly(c: Config, b: Blind, e: Event, now: int)
    requires b.state != 0 && Settled(b) && Toward(b) && Diff(now, b.lastTime) >= 0
    ensures !Toward(Turn(c, b, e, now)) <==>
              e.Received? && e.message.Position? &&
              var target, position := NewTarget(c, b, e.message), Move(b, now).position;
              if b.up then b.enableDown != 0 && target > position else target < position
  {
  }

  /** A blind whose target is behind it is taken to be there at its next wake-up, however soon that is. */
  lemma TargetBehindJumps(c: Config, b: Blind, now: int)
    requires b.state != 0 && Settled(b) && Ahead(b) < 0 && Diff(now, b.lastTime) >= 0
    ensures var t := Turn(c, b, Timeout, now); t.state == 0 && t.position == b.target == t.target
  {
  }

  // ----- runs

  /** A wake-up of the coroutine at a true time; the coroutine sees the register. */
  datatype Entry = Entry(event: Event, time: nat)

  function Run(c: Config, b: Blind, log: seq<Entry>): Blind {
    if log == [] then b
    else
      var last := log[|log| - 1];
      Turn(c, Run(c, b, log[..|log| - 1]), last.event, Register(last.time))
  }

  function LastTime(start: nat, log: seq<Entry>): nat {
    if log == [] then start else log[|log| - 1].time
  }

  /** The clock runs forward, and a running blind wakes up before half the clock range has passed. */
  ghost predicate Timely(c: Config, b: Blind, start: nat, log: seq<Entry>) {
    log == [] ||
    var front, last := log[..|log| - 1], log[|log| - 1];
    && Timely(c, b, start, front)
    && LastTime(start, front) <= last.time
    && (Run(c, b, front).state != 0 ==> last.time - LastTime(start, front) < HALF)
  }

  /** A running blind has noted when it last looked at the clock. */
  ghost predicate Clocked(b: Blind, time: nat) {
    b.state != 0 ==> b.lastTime == Register(time)
  }

  lemma {:induction false} RunClocked(c: Config, b: Blind, start: nat, log: seq<Entry>)
    requires Clocked(b, start)
    ensures Clocked(Run(c, b, log), LastTime(start, log))
  {
    if log != [] {
      RunClocked(c, b, start, log[..|log| - 1]);
    }
  }

  /** The time that the last wake-up of a running blind measures is the true one. */
  lemma Measured(c: Config, b: Blind, start: nat, log: seq<Entry>)
    requires log != [] && Clocked(b, start) && Timely(c, b, start, log)
    requires Run(c, b, log[..|log| - 1]).state != 0
    ensures var front, last := log[..|log| - 1], log[|log| - 1];
            Diff(Register(last.time), Run(c, b, front).lastTime) == last.time - LastTime(start, front)
  {
    var front, last := log[..|log| - 1], log[|log| - 1];
    RunClocked(c, b, start, front);
    DiffIsElapsed(last.time, LastTime(start, front));
  }

  ghost predicate NoPositions(log: seq<Entry>) {
    forall e :: e in log ==> e.event.Timeout? || !e.event.message.Position?
  }

  ghost predicate NoSteps(log: seq<Entry>) {
    forall e :: e in log ==> e.event.Timeout? || !e.event.message.Position? || !e.event.message.step
  }

  /**
   * Whatever messages arrive, the blind is stopped exactly at its target after every wake-up and never goes down while
   * that is disabled; without step messages position and target stay in range, and without any position message the
   * motor always runs toward the target.
   */
  lemma {:induction false} RunSafe(c: Config, startTime: int, lastTime: int, start: nat, log: seq<Entry>)
    requires Timely(c, Initial(c, startTime, lastTime), start, log)
    ensures var b := Run(c, Initial(c, startTime, lastTime), log);
            && (log != [] ==> Settled(b)) && (b.state == 0 || Settled(b))
            && DownIsEnabled(b)
            && (NoSteps(log) ==> InRange(c, b))
            && (NoPositions(log) ==> Toward(b))
  {
    hide Turn;
    var b0 := Initial(c, startTime, lastTime);
    if log != [] {
      var front, last := log[..|log| - 1], log[|log| - 1];
      RunSafe(c, startTime, lastTime, start, front);
      var b := Run(c, b0, front);
      if b.state != 0 {
        Measured(c, b0, start, log);
      }
      assert last in log;
      assert forall e :: e in front ==> e in log;
      TurnSettles(c, b, last.event, Register(last.time));
      TurnKeepsDownEnabled(c, b, last.event, Register(last.time));
      if NoSteps(log) {
        RangeLostExactly(c, b, last.event, Register(last.time));
      }
      if NoPositions(log) {
        TurnKeepsDirection(c, b, last.event, Register(last.time));
      }
    }
  }

  /** It happens: the blind starts going up from the middle, and is then asked for its lowest position. */
  lemma TargetBehindHappens(c: Config, startTime: int, lastTime: int, start: nat, first: nat, second: nat)
    requires c.maxPosition >= 2 && start <= first <= second < first + HALF
    ensures var log := [Entry(Received(Rocker(1)), first), Entry(Received(Position(false, c.maxPosition)), second)];
            && Timely(c, Initial(c, startTime, lastTime), start, log)
            && !Toward(Run(c, Initial(c, startTime, lastTime), log))
  {
    var b := Initial(c, startTime, lastTime);
    var up, behind := Entry(Received(Rocker(1)), first), Entry(Received(Position(false, c.maxPosition)), second);
    var log := [up, behind];
    assert log[..1] == [up] && [up][..0] == [];
    assert Run(c, b, []) == b;
    var moving := Turn(c, b, up.event, Register(first));
    assert Run(c, b, [up]) == moving && moving.state == 1 && moving.up && moving.lastTime == Register(first);
    DiffIsElapsed(second, first);
    assert Run(c, b, log) == Turn(c, moving, behind.event, Register(second));
  }

  /** And a step can take the target out of range. */
  lemma RangeLostHappens(c: Config, startTime: int, lastTime: int, start: nat, p: int)
    requires p > c.maxPosition
    ensures var log := [Entry(Received(Position(true, p)), start)];
            && Timely(c, Initial(c, startTime, lastTime), start, log)
            && !InRange(c, Run(c, Initial(c, startTime, lastTime), log))
  {
    var b := Initial(c, startTime, lastTime);
    var step := Entry(Received(Position(true, p)), start);
    assert [step][..0] == [] && Run(c, b, []) == b;
    assert Run(c, b, [step]) == Turn(c, b, step.event, Register(start));
  }

  /** Moving twice is moving once for the sum of the times. */
  lemma ApproachTwice(b: Blind, d1: nat, d2: nat)
    ensures Approach(b.(position := Approach(b, d1)), d2) == Approach(b, d1 + d2)
  {
  }

  /** No wake-up has changed the target. */
  ghost predicate Undisturbed(c: Config, b: Blind, log: seq<Entry>) {
    forall k :: 0 <= k <= |log| ==> Run(c, b, log[..k]).target == b.target
  }

  /** One more wake-up of a blind that has been moving for some time. */
  lemma SliceStep(c: Config, b: Blind, r: Blind, e: Event, now: int, before: nat, d: nat)
    requires b.state != 0 && Settled(b) && Toward(b)
    requires Settled(r) && r.position == Approach(b, before) && r.up == b.up && r.target == b.target
    requires r.state != 0 ==> Diff(now, r.lastTime) == d
    requires Turn(c, r, e, now).target == b.target
    ensures var t := Turn(c, r, e, now);
            t.position == Approach(b, before + d) && t.up == b.up && Settled(t)
  {
    TurnSettles(c, r, e, now);
    ApproachTwice(b, before, d);
    assert Approach(r, d) == Approach(b.(position := Approach(b, before)), d);
  }

  /**
   * As long as the target stays the same, the position depends on the time that has passed only: it does not matter
   * when and how often the coroutine wakes up.
   */
  lemma {:induction false} SlicingDoesNotMatter(c: Config, b: Blind, start: nat, log: seq<Entry>)
    requires b.state != 0 && Settled(b) && Toward(b) && Clocked(b, start)
    requires Timely(c, b, start, log) && Undisturbed(c, b, log)
    ensures LastTime(start, log) >= start
    ensures var r := Run(c, b, log);
            r.position == Approach(b, LastTime(start, log) - start) && r.up == b.up && Settled(r) && r.target == b.target
  {
    assert log[..|log|] == log && Run(c, b, log[..|log|]).target == b.target;
    if log != [] {
      hide Turn, Approach, Settled;
      var front, last := log[..|log| - 1], log[|log| - 1];
      assert forall k :: 0 <= k <= |front| ==> front[..k] == log[..k];
      SlicingDoesNotMatter(c, b, start, front);
      var r := Run(c, b, front);
      if r.state != 0 {
        Measured(c, b, start, log);
      }
      SliceStep(c, b, r, last.event, Register(last.time), LastTime(start, front) - start, last.time - LastTime(start, front));
    }
  }

  /** A moving blind sleeps until it has arrived, or until it reports its position again. */
  function SleepFor(b: Blind): int {
    if Ahead(b) < STEP then Ahead(b) else STEP
  }

  /** The number of timeouts after which the blind has stopped. */
  function Needed(b: Blind): nat {
    if b.state == 0 then 0 else if Ahead(b) <= STEP then 1 else (Ahead(b) + STEP - 1) / STEP
  }

  /** The sleep of a running blind is over no sooner than it was asked for. */
  ghost predicate Slept(c: Config, b: Blind, start: nat, log: seq<Entry>) {
    log == [] ||
    var front, last := log[..|log| - 1], log[|log| - 1];
    && Slept(c, b, start, front) && last.event.Timeout?
    && var r := Run(c, b, front);
       r.state != 0 ==> last.time - LastTime(start, front) >= SleepFor(r)
  }

  /** A timeout brings the blind closer to its stop. */
  lemma TimeoutCounts(c: Config, b: Blind, now: int)
    requires b.state != 0 && Settled(b)
    requires Diff(now, b.lastTime) >= SleepFor(b)
    requires Diff(now, b.lastTime) >= 0
    ensures Needed(Turn(c, b, Timeout, now)) < Needed(b)
  {
  }

  /**
   * Once messages stop, the blind stops after at most one timeout for every started 200 ms of distance, and after one
   * when the target is behind it.
   */
  lemma {:induction false} Stops(c: Config, b: Blind, start: nat, log: seq<Entry>)
    requires Settled(b) && Clocked(b, start) && Timely(c, b, start, log) && Slept(c, b, start, log)
    ensures Settled(Run(c, b, log))
    ensures Needed(Run(c, b, log)) + |log| <= Needed(b) || Run(c, b, log).state == 0
  {
    if log != [] {
      var front, last := log[..|log| - 1], log[|log| - 1];
      Stops(c, b, start, front);
      var r := Run(c, b, front);
      TurnSettles(c, r, last.event, Register(last.time));
      if r.state != 0 {
        Measured(c, b, start, log);
        TimeoutCounts(c, r, Register(last.time));
      }
    }
  }

  lemma StopsInTime(c: Config, b: Blind, start: nat, log: seq<Entry>)
    requires Settled(b) && Clocked(b, start) && Timely(c, b, start, log) && Slept(c, b, start, log)
    requires |log| >= 1 && 200 * |log| >= Ahead(b)
    ensures Run(c, b, log).state == 0 && Run(c, b, log).position == Run(c, b, log).target
  {
    Stops(c, b, start, log);
  }
}
