/** What each wake-up does to the animated light, message by message. */
module LightLaws {
  import opened Options
  import opened AnimatedLight

  /** The animation advances in turns at or after the time of the next step, and only then. */
  lemma StepLaw(c: Config, b: Light, w: Wake, last: real, now: real)
    requires ConfigOk(c) && Ok(c, b, last) && WakeOk(c, b, w, last, now)
    ensures TurnDefinedFor(c, b, w, now)
    ensures var after := Turn(c, b, w, now).0;
            if (b.on || b.transition) && now >= b.nextTime then after.stepIndex == (b.stepIndex + 1) % |c.steps|
            else after.stepIndex == b.stepIndex
  {
    TurnDefined(c, b, w, last, now);
    TickOk(c, b, w, last, now);
    StepOfTick(c, b, w, now);
    hide Tick, Publish, Fade;
  }

  lemma StepOfTick(c: Config, b: Light, w: Wake, now: real)
    requires c.steps != [] && b.stepIndex < |c.steps|
    ensures Tick(c, b, w, now).stepIndex
            == if (b.on || b.transition) && now >= b.nextTime then (b.stepIndex + 1) % |c.steps| else b.stepIndex
  {
  }

  /** How often a run comes to a next step. */
  ghost function StepsTaken(c: Config, b: Light, start: real, log: seq<Entry>): nat
    requires ConfigOk(c) && Ok(c, b, start) && Timely(c, b, start, log)
    decreases |log|
  {
    if log == [] then 0
    else
      var e := log[0];
      TurnOk(c, b, e.wake, start, e.time);
      (if (b.on || b.transition) && e.time >= b.nextTime then 1 else 0)
      + StepsTaken(c, Turn(c, b, e.wake, e.time).0, e.time, log[1..])
  }

  lemma {:induction false} StepsCount(c: Config, b: Light, start: real, log: seq<Entry>)
    requires ConfigOk(c) && Ok(c, b, start) && Timely(c, b, start, log)
    ensures After(c, b, start, log).0.stepIndex == (b.stepIndex + StepsTaken(c, b, start, log)) % |c.steps|
    decreases |log|
  {
    hide Turn, TurnDefinedFor, WakeOk;
    if log != [] {
      var e := log[0];
      TurnOk(c, b, e.wake, start, e.time);
      StepLaw(c, b, e.wake, start, e.time);
      var next := Turn(c, b, e.wake, e.time).0;
      StepsCount(c, next, e.time, log[1..]);
      Wraps(b.stepIndex + 1, StepsTaken(c, next, e.time, log[1..]), |c.steps|);
    }
  }

  lemma Wraps(x: nat, k: nat, n: nat)
    requires n > 0
    ensures (x % n + k) % n == (x + k) % n
  {
    var q, y := x / n, x % n + k;
    var p := y / n;
    Distributes(q, p, n);
    assert x + k == q * n + p * n + y % n;
    RemainderIs(x + k, q + p, y % n, n);
  }

  lemma Distributes(a: nat, b: nat, n: nat)
    ensures (a + b) * n == a * n + b * n
  {
  }

  /** Quotient and remainder are unique. */
  lemma RemainderIs(x: nat, q: nat, r: nat, n: nat)
    requires r < n && x == q * n + r
    ensures x % n == r
  {
    var p := x / n;
    assert x == p * n + x % n;
    if p < q {
      AtLeastOnce(q, p, n);
    } else if q < p {
      AtLeastOnce(p, q, n);
    }
  }

  lemma {:induction false} AtLeastOnce(a: nat, b: nat, n: nat)
    requires a > b
    ensures a * n >= b * n + n
    decreases a
  {
    Distributes(a - 1, 1, n);
    if a > b + 1 {
      AtLeastOnce(a - 1, b, n);
    }
  }

  /** After any run from the start the animation is at the step that follows from the number of steps taken. */
  lemma StepAfterRun(c: Config, stepTime: real, nextTime: real, offTime: real, offFade: nat, start: real, log: seq<Entry>)
    requires ConfigOk(c) && Timely(c, Started(c, stepTime, nextTime, offTime, offFade, start), start, log)
    ensures var b := Started(c, stepTime, nextTime, offTime, offFade, start);
            After(c, b, start, log).0.stepIndex == StepsTaken(c, b, start, log) % |c.steps|
  {
    StepsCount(c, Started(c, stepTime, nextTime, offTime, offFade, start), start, log);
    hide After, StepsTaken, Timely;
  }

  // ----- the switch

  /** Off, on and toggle; other messages and the timer leave the switch alone, but for the timeout of a light that is on. */
  lemma SwitchLaw(c: Config, b: Light, w: Wake, last: real, now: real)
    requires ConfigOk(c) && Ok(c, b, last) && WakeOk(c, b, w, last, now)
    ensures TurnDefinedFor(c, b, w, now)
    ensures var after := Turn(c, b, w, now).0;
            match w
            case Message(v) =>
              && (v == 0 ==> !after.on) && (v == 1 ==> after.on) && (v == 2 ==> after.on == !b.on) && (v >= 3 ==> after.on == b.on)
            case Timer => after.on == (b.on && !(c.timeout > 0.0 && b.offTime <= StepDeadline(b)))
  {
    TurnDefined(c, b, w, last, now);
    TickOk(c, b, w, last, now);
    hide Tick, Reverse, Publish, Fade;
  }

  /** The timer switches the light off exactly if its timeout has passed and nothing else was to happen before. */
  lemma TimeoutLaw(c: Config, b: Light, last: real, now: real)
    requires ConfigOk(c) && Ok(c, b, last) && WakeOk(c, b, Timer, last, now) && b.on
    ensures TurnDefinedFor(c, b, Timer, now)
    ensures var off := !Turn(c, b, Timer, now).0.on;
            && (off ==> c.timeout > 0.0 && b.offTime <= now)
            && (!off && c.timeout > 0.0 ==> b.nextTime < b.offTime || (b.transition && b.endTime < b.offTime))
  {
    SwitchLaw(c, b, Timer, last, now);
    hide Turn, TurnDefinedFor;
  }

  /** Every message that leaves the light on starts its timeout again. */
  lemma OffTimeLaw(c: Config, b: Light, w: Wake, last: real, now: real)
    requires ConfigOk(c) && Ok(c, b, last) && WakeOk(c, b, w, last, now)
    ensures TurnDefinedFor(c, b, w, now)
    ensures var after := Turn(c, b, w, now).0;
            after.offTime == if w.Message? && w.value < 3 && after.on then now + c.timeout else b.offTime
  {
    TurnDefined(c, b, w, last, now);
    TickOk(c, b, w, last, now);
    OffTimeOfTick(c, b, w, now);
    hide Tick, Publish, Fade;
  }

  lemma OffTimeOfTick(c: Config, b: Light, w: Wake, now: real)
    ensures Tick(c, b, w, now).offTime == b.offTime
  {
  }

  // ----- the fades

  /** A light that is switched fades on in its time for that, and off in one of two times: by a message, or by the timeout. */
  lemma FadeTimeLaw(c: Config, b: Light, w: Wake, last: real, now: real)
    requires ConfigOk(c) && Ok(c, b, last) && WakeOk(c, b, w, last, now)
    ensures TurnDefinedFor(c, b, w, now)
    ensures var after := Turn(c, b, w, now).0;
            after.on != b.on ==>
              && after.transition
              && (after.on ==> after.endTime - after.startTime == c.onFade as real * 100.0 && after.stepTime == now)
              && (!after.on && w.Message? ==> after.endTime - after.startTime == c.offFade as real * 100.0)
              && (!after.on && w.Timer? ==> after.endTime - after.startTime == c.timeoutFade as real * 100.0)
  {
    TurnDefined(c, b, w, last, now);
    TickOk(c, b, w, last, now);
    OffFadeOfTick(c, b, w, now);
    var t := Tick(c, b, w, now);
    SwitchedFade(c, t, Command(c, b, w), now);
    SwitchedStep(c, t, Command(c, b, w), now);
    hide Tick, Publish, Fade, Reverse;
  }

  lemma OffFadeOfTick(c: Config, b: Light, w: Wake, now: real)
    ensures b.on || b.transition ==>
              Tick(c, b, w, now).offFade == if w.Message? then c.offFade else if OffFirst(c, b) then c.timeoutFade else b.offFade
  {
  }

  lemma SwitchedStep(c: Config, t: Light, command: nat, now: real)
    requires t.transition ==> t.startTime < t.endTime
    ensures var u := Switch(c, t, command, now);
            u.offFade == t.offFade && (u.on != t.on ==> u.transition && u.stepTime == if u.on then now else t.stepTime)
  {
  }

  /** A transition ends with its time, or when a message leaves the switch as it is; otherwise it goes on. */
  lemma TransitionLaw(c: Config, b: Light, w: Wake, last: real, now: real)
    requires ConfigOk(c) && Ok(c, b, last) && WakeOk(c, b, w, last, now)
    ensures TurnDefinedFor(c, b, w, now)
    ensures var after := Turn(c, b, w, now).0;
            after.on == b.on ==>
              && (after.transition <==> b.transition && now < b.endTime && !(w.Message? && w.value < 3))
              && (after.transition ==> after.startTime == b.startTime && after.endTime == b.endTime)
  {
    TurnDefined(c, b, w, last, now);
    TickOk(c, b, w, last, now);
    TransitionOfTick(c, b, w, now);
    hide Tick, Publish, Fade, Reverse;
  }

  lemma TransitionOfTick(c: Config, b: Light, w: Wake, now: real)
    ensures var t := Tick(c, b, w, now);
            && (t.transition <==> b.transition && now < b.endTime) && t.on == b.on
            && t.startTime == b.startTime && t.endTime == b.endTime
  {
  }

  // ----- what is published

  /** In tenths of a second, at least one. */
  function StepFade(c: Config, i: nat): nat
    requires i < |c.steps|
  {
    if c.steps[i].fade == 0 then 1 else c.steps[i].fade
  }

  /** A next step comes for a light that is not dark. */
  predicate StepComes(b: Light, now: real) {
    (b.on || b.transition) && now >= b.nextTime
  }

  /** A message cuts a transition short without changing the switch. */
  predicate Cut(b: Light, after: Light, w: Wake, now: real) {
    after.on == b.on && b.transition && now < b.endTime && w.Message? && w.value < 3
  }

  lemma PublishFields(c: Config, v: Light, changed: bool, force: bool, stepped: bool)
    requires v.stepIndex < |c.steps| && (v.transition && v.nextTime < v.endTime ==> v.startTime < v.endTime)
    ensures var o := Publish(c, v, changed, force, stepped);
            && o.switched == changed && o.on == v.on && o.setColor == (stepped || (changed && v.on))
            && (force ==> o.brightnessFade == 1)
            && (!force && (!v.transition || v.nextTime < v.endTime) ==> o.brightnessFade == StepFade(c, v.stepIndex))
            && (!force && v.transition && v.nextTime >= v.endTime && changed ==> o.brightnessFade == if v.on then c.onFade else v.offFade)
            && (!force && v.transition && v.nextTime >= v.endTime && !changed && v.on ==> o.brightnessFade == StepFade(c, v.stepIndex))
  {
  }

  lemma SwitchedOrCut(c: Config, t: Light, command: nat, now: real)
    requires t.transition ==> t.startTime < t.endTime
    ensures var u := Switch(c, t, command, now);
            && u.on == Switched(t.on, command) && u.stepIndex == t.stepIndex && u.offFade == t.offFade && u.nextTime == t.nextTime
            && (u.on == t.on ==> u.transition == (t.transition && command >= 3))
  {
  }

  lemma CommandLaw(c: Config, b: Light, w: Wake)
    ensures Command(c, b, w) < 3 <==> (w.Message? && w.value < 3) || (w.Timer? && OffFirst(c, b))
    ensures w.Timer? && OffFirst(c, b) ==> Command(c, b, w) == 0 && b.on
  {
  }

  lemma NextTimeOfTick(c: Config, b: Light, w: Wake, now: real)
    ensures Tick(c, b, w, now).nextTime == b.nextTime && StepComes(b, now) == Stepped(b, now)
  {
  }

  /**
   * Something is published exactly if the switch changes, a message cuts a transition short, or a light that is not dark comes
   * to a next step; the colour exactly if the step is new or the light has been switched on.
   */
  lemma PublishLaw(c: Config, b: Light, w: Wake, last: real, now: real)
    requires ConfigOk(c) && Ok(c, b, last) && WakeOk(c, b, w, last, now)
    ensures TurnDefinedFor(c, b, w, now)
    ensures var (after, o) := Turn(c, b, w, now); var stepped := StepComes(b, now);
            && (o.Some? <==> after.on != b.on || Cut(b, after, w, now) || (stepped && (after.on || after.transition)))
            && (o.Some? ==> o.value.switched == (after.on != b.on) && o.value.on == after.on
                            && o.value.setColor == (stepped || (after.on && !b.on)))
  {
    TurnDefined(c, b, w, last, now);
    TickOk(c, b, w, last, now);
    TransitionOfTick(c, b, w, now);
    NextTimeOfTick(c, b, w, now);
    CommandLaw(c, b, w);
    var t, command := Tick(c, b, w, now), Command(c, b, w);
    SwitchedOrCut(c, t, command, now);
    hide *;
    SpeaksWhen(c, b, w, now);
  }

  /** The same in terms of the light after the clock part. */
  lemma SpeaksWhen(c: Config, b: Light, w: Wake, now: real)
    requires TurnDefinedFor(c, b, w, now)
    ensures var t, command := Tick(c, b, w, now), Command(c, b, w);
            var u, (after, o) := Switch(c, t, command, now), Turn(c, b, w, now);
            && after.on == u.on && after.transition == u.transition
            && (o.Some? <==> u.on != t.on || (t.transition && command < 3) || (Stepped(b, now) && (u.on || u.transition)))
            && (o.Some? ==> o.value.switched == (u.on != t.on) && o.value.on == u.on
                            && o.value.setColor == (Stepped(b, now) || (u.on && u.on != t.on)))
  {
    hide Tick, Command, Switch, Fade, Stepped;
  }

  /** The published fade time: a tenth of a second for a cut, the time of the step, or that of the fade on or off. */
  lemma PublishedFadeLaw(c: Config, b: Light, w: Wake, last: real, now: real)
    requires ConfigOk(c) && Ok(c, b, last) && WakeOk(c, b, w, last, now)
    ensures TurnDefinedFor(c, b, w, now)
    ensures var (after, o) := Turn(c, b, w, now);
            o.Some? ==>
              && after.stepIndex < |c.steps|
              && var cut := Cut(b, after, w, now); var fade := o.value.brightnessFade;
                 && (cut ==> fade == 1)
                 && (!cut && (!after.transition || after.nextTime < after.endTime) ==> fade == StepFade(c, after.stepIndex))
                 && (after.on != b.on && after.nextTime >= after.endTime ==> fade == if after.on then c.onFade else after.offFade)
                 && (after.on && b.on && after.transition && after.nextTime >= after.endTime ==> fade == StepFade(c, after.stepIndex))
  {
    TurnDefined(c, b, w, last, now);
    TickOk(c, b, w, last, now);
    TransitionOfTick(c, b, w, now);
    CommandLaw(c, b, w);
    var t, command := Tick(c, b, w, now), Command(c, b, w);
    SwitchedOrCut(c, t, command, now);
    SwitchedStep(c, t, command, now);
    var u := Switch(c, t, command, now);
    hide Tick, Command, Switch, Publish, Fade, Ok, WakeOk, Stepped;
    if Turn(c, b, w, now).1.Some? {
      var v := u.(nextTime := u.stepTime + Fade(c, u.stepIndex));
      PublishFields(c, v, u.on != t.on, u.on == t.on && t.transition && command < 3, Stepped(b, now));
    }
  }

  /** How far a fade will have come at the next step. */
  function FadedIn(b: Light): real
    requires b.startTime < b.endTime
  {
    (b.nextTime - b.startTime) / (b.endTime - b.startTime)
  }

  lemma PublishedLevel(c: Config, v: Light, changed: bool, force: bool, stepped: bool)
    requires v.stepIndex < |c.steps| && (v.transition && v.nextTime < v.endTime ==> v.startTime < v.endTime)
    requires (force ==> !v.transition) && (!force && !v.transition ==> v.on)
    ensures var o, level := Publish(c, v, changed, force, stepped), c.steps[v.stepIndex].brightness as real / 100.0;
            && (v.transition && v.nextTime < v.endTime ==> o.brightness == level * if v.on then FadedIn(v) else 1.0 - FadedIn(v))
            && (!(v.transition && v.nextTime < v.endTime) ==> o.brightness == if v.on then level else 0.0)
            && (!force && !changed && !v.on && v.nextTime >= v.endTime ==> o.brightnessFade == Tenths(v.endTime - v.stepTime))
  {
    assert c.steps[v.stepIndex].brightness as real * 0.01 == c.steps[v.stepIndex].brightness as real / 100.0;
  }

  /**
   * The published brightness: that of the step, scaled if the fade goes on beyond the next step, or 0 for a light that is to be
   * off by then. The last part of a fade off takes what is left of it, in whole tenths of a second.
   */
  lemma BrightnessLaw(c: Config, b: Light, w: Wake, last: real, now: real)
    requires ConfigOk(c) && Ok(c, b, last) && WakeOk(c, b, w, last, now)
    ensures TurnDefinedFor(c, b, w, now)
    ensures var (after, o) := Turn(c, b, w, now);
            o.Some? ==>
              && after.stepIndex < |c.steps| && (after.transition && after.nextTime < after.endTime ==> after.startTime < after.endTime)
              && var level, later := c.steps[after.stepIndex].brightness as real / 100.0, after.transition && after.nextTime < after.endTime;
                 && (later ==> o.value.brightness == level * if after.on then FadedIn(after) else 1.0 - FadedIn(after))
                 && (!later ==> o.value.brightness == if after.on then level else 0.0)
                 && (!after.on && !b.on && after.transition && !later ==>
                       o.value.brightnessFade == Tenths(after.endTime - after.stepTime))
  {
    TurnDefined(c, b, w, last, now);
    TickOk(c, b, w, last, now);
    TransitionOfTick(c, b, w, now);
    var t, command := Tick(c, b, w, now), Command(c, b, w);
    SwitchedOrCut(c, t, command, now);
    SwitchedStep(c, t, command, now);
    hide *;
    if Turn(c, b, w, now).1.Some? {
      LevelWhen(c, b, w, now);
    }
  }

  /** The same in terms of the light after the clock part. */
  lemma LevelWhen(c: Config, b: Light, w: Wake, now: real)
    requires TurnDefinedFor(c, b, w, now) && Turn(c, b, w, now).1.Some?
    requires var t, command := Tick(c, b, w, now), Command(c, b, w); var u := Switch(c, t, command, now);
             && u.stepIndex < |c.steps| && (u.on == t.on ==> u.transition == (t.transition && command >= 3))
             && (u.on != t.on ==> u.transition)
    ensures var (after, o) := Turn(c, b, w, now); var t := Tick(c, b, w, now);
            && after.stepIndex < |c.steps| && (after.transition && after.nextTime < after.endTime ==> after.startTime < after.endTime)
            && var level, later := c.steps[after.stepIndex].brightness as real / 100.0, after.transition && after.nextTime < after.endTime;
               && (later ==> o.value.brightness == level * if after.on then FadedIn(after) else 1.0 - FadedIn(after))
               && (!later ==> o.value.brightness == if after.on then level else 0.0)
               && (!after.on && !t.on && after.transition && !later ==> o.value.brightnessFade == Tenths(after.endTime - after.stepTime))
  {
    var t, command := Tick(c, b, w, now), Command(c, b, w);
    var u := Switch(c, t, command, now);
    hide Tick, Command, Switch, Publish, Fade, Stepped, FadedIn, Tenths;
    var v := u.(nextTime := u.stepTime + Fade(c, u.stepIndex));
    PublishedLevel(c, v, u.on != t.on, u.on == t.on && t.transition && command < 3, Stepped(b, now));
  }

  /** The time to fade off that a light remembers, and the time of its next step. */
  lemma TimesLaw(c: Config, b: Light, w: Wake, last: real, now: real)
    requires ConfigOk(c) && Ok(c, b, last) && WakeOk(c, b, w, last, now)
    ensures TurnDefinedFor(c, b, w, now)
    ensures var (after, o) := Turn(c, b, w, now);
            && (b.on || b.transition ==>
                  after.offFade == if w.Message? then c.offFade else if b.on && !after.on then c.timeoutFade else b.offFade)
            && (o.Some? ==> after.stepIndex < |c.steps|
                            && after.nextTime == after.stepTime + StepFade(c, after.stepIndex) as real * 100.0)
            && (o.None? ==> after.nextTime == b.nextTime)
  {
    TurnDefined(c, b, w, last, now);
    TickOk(c, b, w, last, now);
    NextTimeOfTick(c, b, w, now);
    OffFadeOfTick(c, b, w, now);
    CommandLaw(c, b, w);
    var t, command := Tick(c, b, w, now), Command(c, b, w);
    SwitchedOrCut(c, t, command, now);
    hide Tick, Switch, Publish, Ok, WakeOk, Stepped;
  }
}
