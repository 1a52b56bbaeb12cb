/** The coroutine of the animated light: animation steps under a fade that switching on and off starts and reverses. */
module AnimatedLight {
  import opened Options

  /** Brightness in percent and fade time in 1/10 s. */
  datatype Step = Step(brightness: nat, fade: nat)

  /** The timeout in milliseconds, fade times in 1/10 s. */
  datatype Config = Config(timeout: real, onFade: nat, offFade: nat, timeoutFade: nat, steps: seq<Step>)

  ghost predicate ConfigOk(c: Config) {
    c.steps != [] && c.timeout >= 0.0 && forall i :: 0 <= i < |c.steps| ==> c.steps[i].brightness <= 100
  }

  /** The local variables of the coroutine; times are in milliseconds. */
  datatype Light = Light(on: bool, offFade: nat, transition: bool, startTime: real, endTime: real,
                         stepIndex: nat, stepTime: real, nextTime: real, offTime: real)

  /** What ends the wait: a message (0 off, 1 on, 2 toggle, others no change) or the timer. */
  datatype Wake = Message(value: nat) | Timer

  datatype Output = Output(switched: bool, on: bool, brightness: real, brightnessFade: int, setColor: bool)

  const TENTH: real := 100.0

  function Initial(stepTime: real, nextTime: real, offTime: real, offFade: nat): Light {
    Light(false, offFade, false, 0.0, 0.0, 0, stepTime, nextTime, offTime)
  }

  /** Waiting for a message only. */
  predicate Idle(b: Light) {
    !b.on && !b.transition
  }

  /** The next step or, if it is earlier, the end of the transition. */
  function StepDeadline(b: Light): real {
    if b.transition && b.endTime <= b.nextTime then b.endTime else b.nextTime
  }

  predicate OffFirst(c: Config, b: Light) {
    c.timeout > 0.0 && b.on && b.offTime <= StepDeadline(b)
  }

  /** When the timer of a light that is not idle runs out. */
  function Deadline(c: Config, b: Light): real {
    if OffFirst(c, b) then b.offTime else StepDeadline(b)
  }

  function Fade(c: Config, i: nat): real
    requires i < |c.steps|
  {
    if c.steps[i].fade < 1 then TENTH else c.steps[i].fade as real * TENTH
  }

  /** The command that the wait results in: 3 leaves the switch alone. */
  function Command(c: Config, b: Light, w: Wake): nat {
    match w
    case Message(value) => value
    case Timer => if OffFirst(c, b) then 0 else 3
  }

  /** The clock part of a turn: advances the animation and ends the transition. */
  function Tick(c: Config, b: Light, w: Wake, now: real): Light {
    if Idle(b) then b
    else
      var b := b.(offFade := if w.Message? then c.offFade else if OffFirst(c, b) then c.timeoutFade else b.offFade);
      var b := if now >= b.nextTime then
                 b.(stepIndex := if b.stepIndex + 1 >= |c.steps| then 0 else b.stepIndex + 1, stepTime := now)
               else b;
      if now >= b.endTime then b.(transition := false) else b
  }

  predicate Stepped(b: Light, now: real) {
    !Idle(b) && now >= b.nextTime
  }

  function Switched(on: bool, command: nat): bool {
    if command < 2 then command == 1 else if command == 2 then !on else on
  }

  /** The duration of a fade of a switch that has just changed. */
  function Duration(c: Config, on: bool, offFade: nat): real {
    (if on then c.onFade else offFade) as real * TENTH
  }

  /** How far a transition has got. */
  function Progress(b: Light, now: real): real
    requires b.startTime < b.endTime
  {
    (now - b.startTime) / (b.endTime - b.startTime)
  }

  /** Starts a fade, merged with one that is still going on. */
  function Reverse(c: Config, b: Light, on: bool, now: real): (r: Light)
    requires b.transition ==> b.startTime < b.endTime
    ensures r.on == on && r.transition && r.stepIndex == b.stepIndex
  {
    var duration := Duration(c, on, b.offFade);
    var start := if b.transition then now - (1.0 - Progress(b, now)) * duration else now;
    b.(on := on, transition := true, startTime := start, endTime := start + duration, stepTime := if on then now else b.stepTime)
  }

  /** The switch part of a turn. */
  function Switch(c: Config, b: Light, command: nat, now: real): Light
    requires b.transition ==> b.startTime < b.endTime
  {
    var on := Switched(b.on, command);
    var b := if on && command < 3 then b.(offTime := now + c.timeout) else b;
    if on != b.on then Reverse(c, b, on, now)
    else if b.transition && command < 3 then b.(transition := false)
    else b
  }

  /** The light is told something: the switch has changed, a transition was cut short, or a step begins. */
  predicate Speaks(b: Light, after: Light, command: nat, stepped: bool) {
    after.on != b.on || (b.transition && command < 3) || (stepped && !Idle(after))
  }

  function Factor(b: Light): real
    requires b.startTime < b.endTime
  {
    (b.nextTime - b.startTime) / (b.endTime - b.startTime)
  }

  /** Whole tenths of a second. */
  function Tenths(d: real): int {
    if d >= 0.0 then (d / TENTH).Floor else -((-d / TENTH).Floor)
  }

  /** The brightness to fade to and the time to take, for a light whose next step time is set. */
  function Publish(c: Config, b: Light, changed: bool, force: bool, stepped: bool): Output
    requires b.stepIndex < |c.steps|
    requires b.transition && b.nextTime < b.endTime ==> b.startTime < b.endTime
  {
    var level := c.steps[b.stepIndex].brightness as real * 0.01;
    var fade := if c.steps[b.stepIndex].fade < 1 then 1 else c.steps[b.stepIndex].fade;
    var setColor := stepped || (changed && b.on);
    if force then Output(changed, b.on, if b.on then level else 0.0, 1, setColor)
    else if !b.transition then Output(changed, b.on, level, fade, setColor)
    else if b.nextTime < b.endTime then
      Output(changed, b.on, level * (if b.on then Factor(b) else 1.0 - Factor(b)), fade, setColor)
    else if b.on then Output(changed, b.on, level, if changed then c.onFade else fade, setColor)
    else Output(changed, b.on, 0.0, if changed then b.offFade else Tenths(b.endTime - b.stepTime), setColor)
  }

  // ----- the invariant

  /** A transition that is going on has begun and not ended, and an active light has its next step ahead. */
  ghost predicate Ok(c: Config, b: Light, now: real) {
    && b.stepIndex < |c.steps|
    && (b.transition ==> b.startTime <= now && b.startTime <= b.endTime)
    && (!Idle(b) ==> b.stepTime <= now < b.nextTime && b.nextTime == b.stepTime + Fade(c, b.stepIndex))
  }

  /** The timer does not run out early, and the clock runs forward. */
  ghost predicate WakeOk(c: Config, b: Light, w: Wake, last: real, now: real) {
    last <= now && (w.Timer? ==> !Idle(b) && Deadline(c, b) <= now)
  }

  /** After the clock part a transition strictly contains the current time, so its progress is defined and below 1. */
  lemma TickOk(c: Config, b: Light, w: Wake, last: real, now: real)
    requires ConfigOk(c) && Ok(c, b, last) && WakeOk(c, b, w, last, now)
    ensures var t := Tick(c, b, w, now);
            && t.stepIndex < |c.steps| && t.on == b.on
            && (t.transition ==> b.transition && t.startTime <= now < t.endTime)
            && (!Idle(b) ==> t.stepTime <= now < t.stepTime + Fade(c, t.stepIndex))
            && (!Idle(b) && !Stepped(b, now) ==> t.nextTime == t.stepTime + Fade(c, t.stepIndex) && now < t.nextTime)
            && (Stepped(b, now) ==> t.stepTime == now)
  {
  }

  lemma FractionInRange(x: real, d: real)
    requires 0.0 <= x < d
    ensures 0.0 <= x / d < 1.0
  {
    var p := x / d;
    Multiplied(x, d);
    Signs(p, d);
  }

  lemma Multiplied(x: real, d: real)
    requires d != 0.0
    ensures (x / d) * d == x
  {
  }

  lemma Signs(p: real, d: real)
    requires d > 0.0
    ensures p < 0.0 ==> p * d < 0.0
    ensures p >= 1.0 ==> p * d >= d
  {
  }

  lemma ProgressInRange(b: Light, now: real)
    requires b.startTime <= now < b.endTime
    ensures 0.0 <= Progress(b, now) < 1.0
  {
    FractionInRange(now - b.startTime, b.endTime - b.startTime);
  }

  lemma ReverseOk(c: Config, b: Light, on: bool, now: real)
    requires b.transition ==> b.startTime <= now < b.endTime
    ensures var r := Reverse(c, b, on, now);
            r.startTime <= now && r.startTime <= r.endTime && r.endTime == r.startTime + Duration(c, on, b.offFade)
  {
    var duration := Duration(c, on, b.offFade);
    if b.transition {
      ProgressInRange(b, now);
      Product(1.0 - Progress(b, now), duration);
    }
  }

  lemma Product(x: real, d: real)
    requires x >= 0.0 && d >= 0.0
    ensures x * d >= 0.0
  {
  }

  /** How bright the switch alone makes the light: the progress of the fade, or its end. */
  function Level(b: Light, now: real): real {
    if !b.transition || b.startTime >= b.endTime then if b.on then 1.0 else 0.0
    else if b.on then Progress(b, now)
    else 1.0 - Progress(b, now)
  }

  /** The level at which a fade ends. */
  function EndLevel(on: bool): real {
    if on then 1.0 else 0.0
  }

  /** A fade that takes time starts at the level that the light has. */
  lemma FadeContinues(c: Config, b: Light, on: bool, now: real)
    requires (b.transition ==> b.startTime <= now < b.endTime) && on != b.on
    requires Duration(c, on, b.offFade) > 0.0
    ensures Level(Reverse(c, b, on, now), now) == Level(b, now)
  {
    var r := Reverse(c, b, on, now);
    var d := Duration(c, on, b.offFade);
    ReverseOk(c, b, on, now);
    if b.transition {
      var rest := 1.0 - Progress(b, now);
      assert now - r.startTime == rest * d;
      Quotient(rest, d);
      assert Progress(r, now) == rest;
    } else {
      assert Progress(r, now) == 0.0 / d;
    }
  }

  /**
   * Starting a fade, or reversing one, keeps its level exactly if the new fade takes time or the light already has the level
   * at which the new fade ends.
   */
  lemma ContinuousExactly(c: Config, b: Light, on: bool, now: real)
    requires (b.transition ==> b.startTime <= now < b.endTime) && on != b.on
    ensures Level(Reverse(c, b, on, now), now) == Level(b, now)
       <==> Duration(c, on, b.offFade) > 0.0 || Level(b, now) == EndLevel(on)
  {
    if Duration(c, on, b.offFade) > 0.0 {
      FadeContinues(c, b, on, now);
    } else {
      var r := Reverse(c, b, on, now);
      assert r.endTime == r.startTime + Duration(c, on, b.offFade);
    }
  }

  /** Switching a dark light on without a fade time is a jump. */
  lemma NoFadeJumps(c: Config, b: Light, now: real)
    requires !b.on && !b.transition && c.onFade == 0
    ensures Level(b, now) == 0.0 && Level(Reverse(c, b, true, now), now) == 1.0
  {
  }

  lemma Quotient(x: real, d: real)
    requires d != 0.0
    ensures (x * d) / d == x
  {
  }

  // ----- a turn of the loop

  /** The state after a wake-up and what is published; the next step time is set only when something is published. */
  function Turn(c: Config, b: Light, w: Wake, now: real): (r: (Light, Option<Output>))
    requires c.steps != [] && b.stepIndex < |c.steps|
    requires var t := Tick(c, b, w, now); t.transition ==> t.startTime < t.endTime
    requires var t := Tick(c, b, w, now); var u := Switch(c, t, Command(c, b, w), now);
             u.transition && u.stepTime + Fade(c, u.stepIndex) < u.endTime ==> u.startTime < u.endTime
  {
    var t := Tick(c, b, w, now);
    var command := Command(c, b, w);
    var u := Switch(c, t, command, now);
    if !Speaks(t, u, command, Stepped(b, now)) then (u, None)
    else
      var v := u.(nextTime := u.stepTime + Fade(c, u.stepIndex));
      (v, Some(Publish(c, v, u.on != t.on, u.on == t.on && t.transition && command < 3, Stepped(b, now))))
  }

  /** The preconditions of the divisions hold in every state that a run reaches. */
  lemma TurnDefined(c: Config, b: Light, w: Wake, last: real, now: real)
    requires ConfigOk(c) && Ok(c, b, last) && WakeOk(c, b, w, last, now)
    ensures var t := Tick(c, b, w, now);
            && (t.transition ==> t.startTime < t.endTime)
            && var u := Switch(c, t, Command(c, b, w), now);
               && (u.transition ==> u.startTime <= now && u.startTime <= u.endTime)
               && (!Idle(u) ==> u.stepTime <= now < u.stepTime + Fade(c, u.stepIndex))
               && (u.transition && u.stepTime + Fade(c, u.stepIndex) < u.endTime ==> u.startTime < u.endTime)
               && u.stepIndex < |c.steps|
  {
    TickOk(c, b, w, last, now);
    var t := Tick(c, b, w, now);
    var command := Command(c, b, w);
    if Switched(t.on, command) != t.on {
      ReverseOk(c, t.(offTime := Switch(c, t, command, now).offTime), !t.on, now);
    }
  }

  lemma TurnOk(c: Config, b: Light, w: Wake, last: real, now: real)
    requires ConfigOk(c) && Ok(c, b, last) && WakeOk(c, b, w, last, now)
    ensures TurnDefinedFor(c, b, w, now) && Ok(c, Turn(c, b, w, now).0, now)
  {
    TurnDefined(c, b, w, last, now);
    TickOk(c, b, w, last, now);
  }

  ghost predicate TurnDefinedFor(c: Config, b: Light, w: Wake, now: real) {
    && c.steps != [] && b.stepIndex < |c.steps|
    && (var t := Tick(c, b, w, now); t.transition ==> t.startTime < t.endTime)
    && var t := Tick(c, b, w, now); var u := Switch(c, t, Command(c, b, w), now);
       u.transition && u.stepTime + Fade(c, u.stepIndex) < u.endTime ==> u.startTime < u.endTime
  }

  lemma FactorInRange(b: Light)
    requires b.startTime <= b.nextTime < b.endTime
    ensures 0.0 <= Factor(b) <= 1.0
  {
    FractionInRange(b.nextTime - b.startTime, b.endTime - b.startTime);
  }

  lemma PublishInRange(c: Config, v: Light, changed: bool, force: bool, stepped: bool)
    requires ConfigOk(c) && v.stepIndex < |c.steps|
    requires v.transition ==> v.startTime <= v.nextTime
    requires v.transition && !changed && !v.on ==> v.stepTime <= v.endTime
    ensures var o := Publish(c, v, changed, force, stepped);
            0.0 <= o.brightness <= 1.0 && o.brightnessFade >= 0
  {
    var level := c.steps[v.stepIndex].brightness as real * 0.01;
    assert 0.0 <= level <= 1.0;
    if v.transition && v.nextTime < v.endTime {
      FactorInRange(v);
      Scaled(level, Factor(v));
      Scaled(level, 1.0 - Factor(v));
    }
    TenthsInRange(v.endTime - v.stepTime);
  }

  lemma Scaled(x: real, f: real)
    requires 0.0 <= x <= 1.0 && 0.0 <= f <= 1.0
    ensures 0.0 <= x * f <= 1.0
  {
    Product(x, f);
    Product(x, 1.0 - f);
    assert x * f + x * (1.0 - f) == x;
  }

  lemma TenthsInRange(d: real)
    ensures d >= 0.0 ==> Tenths(d) >= 0
  {
  }

  /** Whatever is published is a brightness between dark and full, faded to in no negative time. */
  lemma PublishedInRange(c: Config, b: Light, w: Wake, last: real, now: real)
    requires ConfigOk(c) && Ok(c, b, last) && WakeOk(c, b, w, last, now)
    ensures TurnDefinedFor(c, b, w, now)
    ensures var o := Turn(c, b, w, now).1;
            o.Some? ==> 0.0 <= o.value.brightness <= 1.0 && o.value.brightnessFade >= 0
  {
    hide Publish, Reverse;
    TurnDefined(c, b, w, last, now);
    TickOk(c, b, w, last, now);
    var t := Tick(c, b, w, now);
    var command := Command(c, b, w);
    var u := Switch(c, t, command, now);
    if Turn(c, b, w, now).1.Some? {
      var v := u.(nextTime := u.stepTime + Fade(c, u.stepIndex));
      assert u.on == t.on ==> u.stepTime == t.stepTime && u.endTime == t.endTime && (u.transition ==> t.transition);
      assert v.transition ==> !Idle(u) || v.startTime <= now;
      PublishInRange(c, v, u.on != t.on, u.on == t.on && t.transition && command < 3, Stepped(b, now));
    }
  }

  /** The brightness of the current animation step. */
  function StepLevel(c: Config, b: Light): real
    requires b.stepIndex < |c.steps|
  {
    c.steps[b.stepIndex].brightness as real * 0.01
  }

  lemma PublishOnLevel(c: Config, v: Light, changed: bool, force: bool, stepped: bool)
    requires v.stepIndex < |c.steps|
    requires v.transition ==> v.startTime <= v.nextTime && v.startTime <= v.endTime
    requires if force then !v.transition else v.on || v.transition
    ensures Publish(c, v, changed, force, stepped).brightness == StepLevel(c, v) * Level(v, StepDeadline(v))
  {
    if v.transition && v.nextTime >= v.endTime && v.startTime < v.endTime {
      assert Progress(v, v.endTime) == 1.0 by { WholeFraction(v.endTime - v.startTime); }
    }
  }

  lemma WholeFraction(d: real)
    requires d != 0.0
    ensures d / d == 1.0
  {
  }

  /** What is published is the brightness of the step under the fade as it will be at the next wake-up. */
  lemma PublishedOnLevel(c: Config, b: Light, w: Wake, last: real, now: real)
    requires ConfigOk(c) && Ok(c, b, last) && WakeOk(c, b, w, last, now)
    ensures TurnDefinedFor(c, b, w, now)
    ensures var (after, o) := Turn(c, b, w, now);
            o.Some? ==> after.stepIndex < |c.steps| && o.value.on == after.on
                        && o.value.brightness == StepLevel(c, after) * Level(after, StepDeadline(after))
  {
    hide Publish, Reverse, Level, StepLevel, Tick, Command, Stepped, WakeOk;
    TurnDefined(c, b, w, last, now);
    TickOk(c, b, w, last, now);
    var t := Tick(c, b, w, now);
    var command := Command(c, b, w);
    var u := Switch(c, t, command, now);
    if Turn(c, b, w, now).1.Some? {
      var v := u.(nextTime := u.stepTime + Fade(c, u.stepIndex));
      PublishOnLevel(c, v, u.on != t.on, u.on == t.on && t.transition && command < 3, Stepped(b, now));
      PublishKeepsSwitch(c, v, u.on != t.on, u.on == t.on && t.transition && command < 3, Stepped(b, now));
    }
  }

  lemma PublishKeepsSwitch(c: Config, v: Light, changed: bool, force: bool, stepped: bool)
    requires v.stepIndex < |c.steps|
    requires v.transition && v.nextTime < v.endTime ==> v.startTime < v.endTime
    ensures Publish(c, v, changed, force, stepped).on == v.on
  {
  }

  // ----- when a published fade ends

  predicate WholeTenths(d: real) {
    d == (d / TENTH).Floor as real * TENTH
  }

  /**
   * A published fade ends when the light is to have its brightness: if the next step comes first, when the step begins now;
   * otherwise, for a light that has just been switched, when its fade begins now; for one that is fading on, when the step
   * takes just as long; and for one that is fading off, when whole tenths of a second remain.
   */
  predicate InTime(v: Light, changed: bool, now: real) {
    if v.nextTime < v.endTime then v.stepTime == now
    else if changed then v.startTime == now
    else if v.on then v.nextTime == v.endTime
    else WholeTenths(v.endTime - now)
  }

  lemma TenthsExactly(d: real)
    requires d >= 0.0
    ensures Tenths(d) as real * TENTH == d <==> WholeTenths(d)
  {
  }

  lemma PublishInTimeExactly(c: Config, v: Light, changed: bool, stepped: bool, now: real)
    requires v.stepIndex < |c.steps| && v.transition && v.nextTime == v.stepTime + Fade(c, v.stepIndex)
    requires v.startTime <= v.endTime && (v.nextTime < v.endTime ==> v.startTime < v.endTime)
    requires if changed then v.endTime == v.startTime + Duration(c, v.on, v.offFade) else v.stepTime == now <= v.endTime
    ensures now + Publish(c, v, changed, false, stepped).brightnessFade as real * TENTH == StepDeadline(v) <==> InTime(v, changed, now)
  {
    if v.nextTime >= v.endTime && !changed && !v.on {
      TenthsExactly(v.endTime - now);
    }
  }

  /** A turn that leaves a transition publishes a fade that ends in time exactly under that condition. */
  lemma PublishedInTimeExactly(c: Config, b: Light, w: Wake, last: real, now: real)
    requires ConfigOk(c) && Ok(c, b, last) && WakeOk(c, b, w, last, now)
    ensures TurnDefinedFor(c, b, w, now)
    ensures var (after, o) := Turn(c, b, w, now);
            o.Some? && after.transition ==>
              (now + o.value.brightnessFade as real * TENTH == StepDeadline(after) <==> InTime(after, after.on != b.on, now))
  {
    hide Publish, Command, WakeOk, InTime, StepDeadline;
    TurnDefined(c, b, w, last, now);
    TickOk(c, b, w, last, now);
    var t := Tick(c, b, w, now);
    var command := Command(c, b, w);
    var u := Switch(c, t, command, now);
    hide Tick;
    if Turn(c, b, w, now).1.Some? && u.transition {
      var v := u.(nextTime := u.stepTime + Fade(c, u.stepIndex));
      SwitchedFade(c, t, command, now);
      PublishInTimeExactly(c, v, u.on != t.on, Stepped(b, now), now);
    }
  }

  /** A switch that has changed starts a fade of its duration; one that has not leaves the fade as it is or ends it. */
  lemma SwitchedFade(c: Config, t: Light, command: nat, now: real)
    requires t.transition ==> t.startTime <= now < t.endTime
    ensures var u := Switch(c, t, command, now);
            && (u.on != t.on ==> u.endTime == u.startTime + Duration(c, u.on, u.offFade) && u.startTime <= u.endTime)
            && (u.on == t.on && u.transition ==>
                  t.transition && command >= 3 && u.stepTime == t.stepTime && u.startTime == t.startTime && u.endTime == t.endTime)
  {
    if Switched(t.on, command) != t.on {
      ReverseOk(c, t.(offTime := Switch(c, t, command, now).offTime), !t.on, now);
    }
  }

  /** The fade of a light that has just been switched begins now exactly if it merges no other one or takes no time. */
  lemma BeginsNowExactly(c: Config, b: Light, on: bool, now: real)
    requires b.transition ==> b.startTime <= now < b.endTime
    ensures Reverse(c, b, on, now).startTime == now <==> !b.transition || Duration(c, on, b.offFade) == 0.0
  {
    if b.transition {
      ProgressInRange(b, now);
      NoProduct(1.0 - Progress(b, now), Duration(c, on, b.offFade));
    }
  }

  lemma NoProduct(x: real, d: real)
    requires x > 0.0
    ensures x * d == 0.0 <==> d == 0.0
  {
  }

  /** A light that is switched off half way through its fade has faded off after one second, but is told to take two. */
  lemma MergedFadeLate(b: Light)
    requires b == Initial(0.0, 0.0, 0.0, 0)
    ensures var c := Config(0.0, 20, 20, 20, [Step(100, 100)]);
            && TurnDefinedFor(c, b, Message(1), 0.0)
            && var on := Turn(c, b, Message(1), 0.0).0;
               && TurnDefinedFor(c, on, Message(0), 1000.0)
               && var (off, o) := Turn(c, on, Message(0), 1000.0);
                  && o == Some(Output(true, false, 0.0, 20, false))
                  && off.transition && StepDeadline(off) == 2000.0 && 1000.0 + 20.0 * TENTH == 3000.0
  {
    var c := Config(0.0, 20, 20, 20, [Step(100, 100)]);
    var on := Light(true, 0, true, 0.0, 2000.0, 0, 0.0, 10000.0, 0.0);
    assert Turn(c, b, Message(1), 0.0).0 == on;
    var t := on.(offFade := 20);
    assert Tick(c, on, Message(0), 1000.0) == t;
    assert Progress(t, 1000.0) == 0.5;
    assert Switch(c, t, 0, 1000.0) == t.(on := false, startTime := 0.0, endTime := 2000.0);
  }

  lemma SwitchIsContinuous(c: Config, t: Light, command: nat, now: real)
    requires t.transition ==> t.startTime <= now < t.endTime
    ensures var u := Switch(c, t, command, now);
            u.on != t.on ==>
              && u.transition && u.startTime <= now
              && (Level(u, now) == Level(t, now) <==> Duration(c, u.on, t.offFade) > 0.0 || Level(t, now) == EndLevel(u.on))
  {
    var on := Switched(t.on, command);
    var x := if on && command < 3 then t.(offTime := now + c.timeout) else t;
    if on != t.on {
      assert Level(x, now) == Level(t, now);
      ReverseOk(c, x, on, now);
      ContinuousExactly(c, x, on, now);
    }
  }

  /**
   * A turn that merges a fade with one in progress does so strictly inside it, and the light goes on from the level that it
   * had, except for a fade that takes no time.
   */
  lemma TurnIsContinuous(c: Config, b: Light, w: Wake, last: real, now: real)
    requires ConfigOk(c) && Ok(c, b, last) && WakeOk(c, b, w, last, now)
    ensures TurnDefinedFor(c, b, w, now)
    ensures var t, after := Tick(c, b, w, now), Turn(c, b, w, now).0;
            after.on != t.on ==>
              && (t.transition ==> t.startTime <= now < t.endTime)
              && after.transition && after.startTime <= now
              && (Level(after, now) == Level(t, now)
                  <==> Duration(c, after.on, t.offFade) > 0.0 || Level(t, now) == EndLevel(after.on))
  {
    TurnDefined(c, b, w, last, now);
    TickOk(c, b, w, last, now);
    SwitchIsContinuous(c, Tick(c, b, w, now), Command(c, b, w), now);
    hide Tick, Switch, Publish, Ok, Command;
  }

  // ----- runs

  datatype Entry = Entry(wake: Wake, time: real)

  /** The clock runs forward and the timer of the light is not early. */
  ghost predicate Timely(c: Config, b: Light, start: real, log: seq<Entry>)
    requires ConfigOk(c) && Ok(c, b, start)
    decreases |log|
  {
    log == [] ||
    var e := log[0];
    WakeOk(c, b, e.wake, start, e.time)
    && (TurnOk(c, b, e.wake, start, e.time);
        Timely(c, Turn(c, b, e.wake, e.time).0, e.time, log[1..]))
  }

  /** The state and the time after a run of wake-ups. */
  ghost function After(c: Config, b: Light, start: real, log: seq<Entry>): (r: (Light, real))
    requires ConfigOk(c) && Ok(c, b, start) && Timely(c, b, start, log)
    ensures Ok(c, r.0, r.1)
    decreases |log|
  {
    if log == [] then (b, start)
    else
      var e := log[0];
      TurnOk(c, b, e.wake, start, e.time);
      After(c, Turn(c, b, e.wake, e.time).0, e.time, log[1..])
  }

  /** The coroutine starts with any values in the variables that it does not initialize. */
  ghost function Started(c: Config, stepTime: real, nextTime: real, offTime: real, offFade: nat, now: real): (r: Light)
    requires ConfigOk(c)
    ensures Ok(c, r, now) && r == Initial(stepTime, nextTime, offTime, offFade)
  {
    Initial(stepTime, nextTime, offTime, offFade)
  }

  /**
   * The divisions of a turn are defined; what it publishes is in range and the brightness of the step under the fade as it will
   * be at the next wake-up, with a fade that ends then under the condition above; and a fade that it starts or reverses goes on
   * from the level that the light has, except for one that takes no time.
   */
  ghost predicate SafeTurn(c: Config, b: Light, w: Wake, now: real) {
    && TurnDefinedFor(c, b, w, now)
    && var (next, o) := Turn(c, b, w, now); var t := Tick(c, b, w, now);
       && (o.Some? ==> 0.0 <= o.value.brightness <= 1.0 && o.value.brightnessFade >= 0)
       && (o.Some? ==> next.stepIndex < |c.steps|
                       && o.value.brightness == StepLevel(c, next) * Level(next, StepDeadline(next)))
       && (o.Some? && next.transition ==>
             (now + o.value.brightnessFade as real * TENTH == StepDeadline(next) <==> InTime(next, next.on != b.on, now)))
       && (next.on != t.on ==>
             (Level(next, now) == Level(t, now) <==> Duration(c, next.on, t.offFade) > 0.0 || Level(t, now) == EndLevel(next.on)))
  }

  lemma TurnSafe(c: Config, b: Light, w: Wake, last: real, now: real)
    requires ConfigOk(c) && Ok(c, b, last) && WakeOk(c, b, w, last, now)
    ensures SafeTurn(c, b, w, now)
  {
    hide Turn, Level, StepLevel, Tick, Switch, Duration, WakeOk, StepDeadline, EndLevel, InTime, TurnDefinedFor;
    PublishedOnLevel(c, b, w, last, now);
    PublishedInRange(c, b, w, last, now);
    PublishedInTimeExactly(c, b, w, last, now);
    TurnIsContinuous(c, b, w, last, now);
  }

  /** After any run from the start of the coroutine the next turn is safe. */
  lemma RunSafe(c: Config, stepTime: real, nextTime: real, offTime: real, offFade: nat, start: real, log: seq<Entry>, w: Wake, now: real)
    requires ConfigOk(c)
    requires Timely(c, Started(c, stepTime, nextTime, offTime, offFade, start), start, log)
    requires var (light, time) := After(c, Started(c, stepTime, nextTime, offTime, offFade, start), start, log);
             WakeOk(c, light, w, time, now)
    ensures SafeTurn(c, After(c, Started(c, stepTime, nextTime, offTime, offFade, start), start, log).0, w, now)
  {
    hide Ok, WakeOk, SafeTurn, Timely;
    var (light, time) := After(c, Started(c, stepTime, nextTime, offTime, offFade, start), start, log);
    TurnSafe(c, light, w, time, now);
  }

  // ----- the coroutine object

  class Coroutine {
    const config: Config
    var on: bool
    var offFade: nat
    var transition: bool
    var startTime: real
    var endTime: real
    var stepIndex: nat
    var stepTime: real
    var nextTime: real
    var offTime: real

    ghost function Model(): Light
      reads this
    {
      Light(on, offFade, transition, startTime, endTime, stepIndex, stepTime, nextTime, offTime)
    }

    constructor (config: Config, stepTime: real, nextTime: real, offTime: real, offFade: nat)
      ensures this.config == config && Model() == Initial(stepTime, nextTime, offTime, offFade)
    {
      this.config := config;
      on, transition, stepIndex := false, false, 0;
      startTime, endTime := 0.0, 0.0;
      this.stepTime, this.nextTime, this.offTime, this.offFade := stepTime, nextTime, offTime, offFade;
    }

    /** The end of the wait: chooses the command, advances the animation and ends the transition. */
    method Resume(w: Wake, now: real) returns (command: nat, setColor: bool)
      requires config.steps != []
      modifies this
      ensures Model() == Tick(config, old(Model()), w, now)
      ensures command == Command(config, old(Model()), w) && setColor == Stepped(old(Model()), now)
    {
      setColor := false;
      var deadline := nextTime;
      if transition && endTime <= deadline {
        deadline := endTime;
      }
      var off := config.timeout > 0.0 && on && offTime <= deadline;
      if w.Message? {
        command := w.value;
      } else {
        command := if off then 0 else 3;
      }
      if on || transition {
        if w.Message? {
          offFade := config.offFade;
        } else if off {
          offFade := config.timeoutFade;
        }
        if now >= nextTime {
          stepIndex := stepIndex + 1;
          if stepIndex >= |config.steps| {
            stepIndex := 0;
          }
          stepTime := now;
          setColor := true;
        }
        if now >= endTime {
          transition := false;
        }
      }
    }

    /** Starts the fade of a switch that has just changed, merging it with one that is still going on. */
    method StartFade(now: real)
      requires transition ==> startTime < endTime
      modifies this
      ensures Model() == Reverse(config, old(Model()), old(on), now)
    {
      var duration := (if on then config.onFade else offFade) as real * TENTH;
      if transition {
        var s := (now - startTime) / (endTime - startTime);
        assert s == Progress(Model(), now);
        startTime := now - (1.0 - s) * duration;
      } else {
        startTime := now;
      }
      endTime := startTime + duration;
      if on {
        stepTime := now;
      }
      transition := true;
    }

    /** Applies the command to the switch and starts, merges or cuts short the fade. */
    method Apply(command: nat, now: real) returns (changed: bool, force: bool)
      requires transition ==> startTime < endTime
      modifies this
      ensures Model() == Switch(config, old(Model()), command, now)
      ensures changed == (on != old(on)) && force == (!changed && old(transition) && command < 3)
    {
      hide Reverse;
      changed, force := false, false;
      if command < 2 {
        changed := on != (command == 1);
        on := command == 1;
      } else if command == 2 {
        on := !on;
        changed := true;
      }
      if on && command < 3 {
        offTime := now + config.timeout;
      }
      if changed {
        ghost var x := Model();
        StartFade(now);
        assert Model() == Reverse(config, x.(on := old(on)), on, now) by { SwitchedFirst(config, x, old(on), now); }
      } else if transition && command < 3 {
        transition := false;
        force := true;
      }
    }

    /** What the light is told, once the time of its next step is set. */
    method Publication(changed: bool, force: bool, stepped: bool) returns (output: Output)
      requires stepIndex < |config.steps|
      requires transition && nextTime < endTime ==> startTime < endTime
      ensures output == Publish(config, Model(), changed, force, stepped)
    {
      var fade := if config.steps[stepIndex].fade < 1 then 1 else config.steps[stepIndex].fade;
      var brightness := config.steps[stepIndex].brightness as real * 0.01;
      var brightnessFade := fade;
      if force {
        brightnessFade := 1;
        if !on {
          brightness := 0.0;
        }
      } else if on {
        if transition {
          if nextTime >= endTime {
            if changed {
              brightnessFade := config.onFade;
            }
          } else {
            brightness := brightness * ((nextTime - startTime) / (endTime - startTime));
          }
        }
      } else if transition {
        if nextTime >= endTime {
          brightnessFade := if changed then offFade else Tenths(endTime - stepTime);
          brightness := 0.0;
        } else {
          brightness := brightness * (1.0 - (nextTime - startTime) / (endTime - startTime));
        }
      }
      output := Output(changed, on, brightness, brightnessFade, stepped || (changed && on));
    }

    /** One turn of the loop: what is published, if anything. */
    method Advance(w: Wake, now: real) returns (output: Option<Output>)
      requires TurnDefinedFor(config, Model(), w, now)
      modifies this
      ensures (Model(), output) == Turn(config, old(Model()), w, now)
    {
      hide Switch, Command, Publish;
      var command, stepped := Resume(w, now);
      var changed, force := Apply(command, now);
      SwitchKeepsStep(config, Tick(config, old(Model()), w, now), command, now);
      TickKeepsSwitch(config, old(Model()), w, now);
      hide Tick;
      if !changed && !force && (!stepped || (!on && !transition)) {
        return None;
      }
      var fade := if config.steps[stepIndex].fade < 1 then 1 else config.steps[stepIndex].fade;
      nextTime := stepTime + fade as real * TENTH;
      var o := Publication(changed, force, stepped);
      output := Some(o);
    }
  }

  lemma SwitchedFirst(c: Config, x: Light, was: bool, now: real)
    requires x.transition ==> x.startTime < x.endTime
    ensures Reverse(c, x, x.on, now) == Reverse(c, x.(on := was), x.on, now)
  {
  }

  lemma SwitchKeepsStep(c: Config, b: Light, command: nat, now: real)
    requires b.transition ==> b.startTime < b.endTime
    ensures Switch(c, b, command, now).stepIndex == b.stepIndex
  {
  }

  lemma TickKeepsSwitch(c: Config, b: Light, w: Wake, now: real)
    requires c.steps != [] && b.stepIndex < |c.steps|
    ensures Tick(c, b, w, now).on == b.on && Tick(c, b, w, now).stepIndex < |c.steps|
  {
  }
}
