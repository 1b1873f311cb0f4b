/** One timed session of the reaction game (`game_loop`). Every tick runs, in
    this order: the end test, arming an LED, expiring a lit LED, and scoring
    the buttons against the lit LED. */
module Session {
  import opened Wrappers
  import Levels

  /** Two buttons and two LEDs, paired by index. */
  const NumChannels: nat := 2

  /** `game_duration`, in seconds. */
  const GameDurationSeconds: int := 60

  /** The same duration in the millisecond ticks of the game clock. */
  const GameDurationMs: int := 60000

  /** Fixed for a session: how long an LED stays lit (and the pause after it
      goes out), and the clock reading when play began. */
  datatype Config = Config(ledTime: nat, startTime: int)

  /** The session configuration `game_loop` derives from the level. */
  function ConfigFor(level: int, startTime: int): (cfg: Config)
    ensures cfg.ledTime == Levels.LedTime(level) && cfg.ledTime > 0
    ensures cfg.startTime == startTime
  {
    Config(Levels.LedTime(level), startTime)
  }

  /** The variables the loop updates. `ended` records that the loop has been
      left and the LEDs switched off. */
  datatype GameState = GameState(
    ledOn: bool,
    currentLed: Option<nat>,
    ledStart: int,
    nextLedTime: int,
    score: int,
    stopRequested: bool,
    ended: bool)

  /** What one tick takes from outside: the clock, the channel that
      `random.randint(0, 1)` picks, the two buttons (`true` = pressed), and
      whether the window was closed or STOP touched during the tick. */
  datatype TickInput = TickInput(now: int, chosenChannel: nat, pressed: seq<bool>, stop: bool)

  predicate WellFormed(t: TickInput) {
    t.chosenChannel < NumChannels && |t.pressed| == NumChannels
  }

  predicate AllWellFormed(inputs: seq<TickInput>) {
    forall i :: 0 <= i < |inputs| ==> WellFormed(inputs[i])
  }

  /** A lit LED is a real channel, and nothing is lit once the session is over. */
  predicate Inv(s: GameState) {
    && (s.currentLed.Some? ==> s.currentLed.value < NumChannels)
    && (s.ledOn ==> s.currentLed.Some?)
    && (s.ended ==> !s.ledOn)
  }

  /** The level written to each LED output. At most one LED is lit, and when
      one is, it is `currentLed`. */
  function Lit(s: GameState): (lit: seq<bool>)
    requires Inv(s)
    ensures |lit| == NumChannels
    ensures forall i, j :: 0 <= i < j < NumChannels ==> !(lit[i] && lit[j])
    ensures s.ledOn ==> lit[s.currentLed.value]
    ensures !s.ledOn ==> forall i :: 0 <= i < NumChannels ==> !lit[i]
  {
    seq(NumChannels, i => s.ledOn && s.currentLed.value == i)
  }

  /** The state when play begins: score 0, no stop request, nothing lit, and
      no LED due before one on-time has passed. */
  function Start(cfg: Config): (s: GameState)
    ensures Inv(s) && !s.ended && !s.stopRequested && s.score == 0
    ensures forall i :: 0 <= i < NumChannels ==> !Lit(s)[i]
    ensures s.nextLedTime - cfg.startTime == cfg.ledTime
  {
    GameState(false, None, 0, cfg.startTime + cfg.ledTime, 0, false, false)
  }

  /** The loop is left when a stop was requested or when the elapsed time,
      in seconds as the program computes it, reaches `game_duration`. */
  function SessionOver(s: GameState, cfg: Config, now: int): (over: bool)
    ensures over <==> s.stopRequested || (now - cfg.startTime) as real / 1000.0 >= GameDurationSeconds as real
  {
    s.stopRequested || now - cfg.startTime >= GameDurationMs
  }

  /** Leaving the loop: every LED output is written low, the score is kept. */
  function Finish(s: GameState): (r: GameState)
    requires Inv(s)
    ensures Inv(r) && r.ended && r.score == s.score
    ensures forall i :: 0 <= i < NumChannels ==> !Lit(r)[i]
  {
    s.(ledOn := false, ended := true)
  }

  /** Light the chosen LED when none is lit and the next one is due. A lit
      LED stays as it is, a tick with nothing lit and nothing due changes
      nothing, and the score, the schedule and the stop request are never
      touched. */
  function Arm(s: GameState, now: int, channel: nat): (r: GameState)
    requires Inv(s) && !s.ended && channel < NumChannels
    ensures Inv(r) && !r.ended && r.score == s.score
    ensures r.ledOn <==> s.ledOn || now >= s.nextLedTime
    ensures r.nextLedTime == s.nextLedTime && r.stopRequested == s.stopRequested
    ensures s.ledOn ==> r == s
    ensures !s.ledOn && now < s.nextLedTime ==> r == s
    ensures !s.ledOn && now >= s.nextLedTime ==> Lit(r)[channel] && r.ledStart == now
  {
    if !s.ledOn && now >= s.nextLedTime then
      s.(ledOn := true, currentLed := Some(channel), ledStart := now)
    else s
  }

  /** Switch off a lit LED whose on-time has run out and schedule the next
      one an on-time later. Otherwise nothing changes; the score, the start
      of the lit LED and the stop request are never touched. */
  function Expire(s: GameState, cfg: Config, now: int): (r: GameState)
    requires Inv(s)
    ensures Inv(r) && r.ended == s.ended && r.score == s.score && r.currentLed == s.currentLed
    ensures r.ledStart == s.ledStart && r.stopRequested == s.stopRequested
    ensures r.ledOn <==> s.ledOn && now - s.ledStart < cfg.ledTime
    ensures s.ledOn && !r.ledOn ==> r.nextLedTime == now + cfg.ledTime
    ensures !s.ledOn ==> r == s
    ensures r.ledOn ==> r == s
  {
    if s.ledOn && now - s.ledStart >= cfg.ledTime then
      s.(ledOn := false, nextLedTime := now + cfg.ledTime)
    else s
  }

  /** The state the buttons are read against in a tick that does not end the
      session. */
  function Sampled(s: GameState, cfg: Config, t: TickInput): GameState
    requires Inv(s) && !s.ended && WellFormed(t)
  {
    Expire(Arm(s, t.now, t.chosenChannel), cfg, t.now)
  }

  /** The inner `for` over the buttons, in channel order: each pressed button
      scores +1 if it is `currentLed` and -1 otherwise, and switches the LED
      off and schedules the next one. `led_on` is not checked again inside the
      loop, so every pressed button is scored. */
  function PressButtons(s: GameState, cfg: Config, now: int, pressed: seq<bool>): (r: GameState)
    requires s.currentLed.Some?
    ensures r.currentLed == s.currentLed && r.ledStart == s.ledStart
    ensures r.stopRequested == s.stopRequested && r.ended == s.ended
    ensures r.ledOn ==> s.ledOn
    ensures r.score - s.score <= |pressed| && s.score - r.score <= |pressed|
    decreases |pressed|
  {
    if pressed == [] then s
    else
      var r := PressButtons(s, cfg, now, pressed[..|pressed| - 1]);
      var i := |pressed| - 1;
      if !pressed[i] then r
      else r.(score := r.score + (if i == s.currentLed.value then 1 else -1),
              ledOn := false, nextLedTime := now + cfg.ledTime)
  }

  /** Buttons are only looked at while an LED is lit; one reading moves the
      score by at most one point and can only switch the LED off. */
  function ScoreButtons(s: GameState, cfg: Config, now: int, pressed: seq<bool>): (r: GameState)
    requires Inv(s) && |pressed| == NumChannels
    ensures Inv(r) && r.ended == s.ended && r.stopRequested == s.stopRequested
    ensures !s.ledOn ==> r == s
    ensures r.ledOn ==> s.ledOn
    ensures -1 <= r.score - s.score <= 1
  {
    if s.ledOn then
      PressTwoButtons(s, cfg, now, pressed);
      PressButtons(s, cfg, now, pressed)
    else s
  }

  /** One iteration of the `while not stop_requested` loop. */
  function Step(s: GameState, cfg: Config, t: TickInput): (r: GameState)
    requires Inv(s) && !s.ended && WellFormed(t)
    ensures Inv(r)
    ensures r.ended <==> SessionOver(s, cfg, t.now)
    ensures !r.ended ==> r.stopRequested == t.stop
  {
    if SessionOver(s, cfg, t.now) then Finish(s)
    else
      var scored := ScoreButtons(Sampled(s, cfg, t), cfg, t.now, t.pressed);
      if t.stop then scored.(stopRequested := true) else scored
  }

  /** The loop over a sequence of ticks, until it is left or the ticks run out. */
  function Run(s: GameState, cfg: Config, inputs: seq<TickInput>): (r: GameState)
    requires Inv(s) && AllWellFormed(inputs)
    ensures Inv(r)
    decreases |inputs|
  {
    if s.ended || inputs == [] then s
    else Run(Step(s, cfg, inputs[0]), cfg, inputs[1..])
  }

  /** Without a window close or STOP touch, play goes on until a tick
      reaches the minute: a run of earlier ticks neither ends the session
      nor requests a stop. */
  lemma {:induction false} RunLastsTheMinute(s: GameState, cfg: Config, inputs: seq<TickInput>)
    requires Inv(s) && !s.ended && !s.stopRequested && AllWellFormed(inputs)
    requires forall i :: 0 <= i < |inputs| ==> !inputs[i].stop && inputs[i].now - cfg.startTime < GameDurationMs
    ensures !Run(s, cfg, inputs).ended && !Run(s, cfg, inputs).stopRequested
    decreases |inputs|
  {
    if inputs != [] {
      RunLastsTheMinute(Step(s, cfg, inputs[0]), cfg, inputs[1..]);
    }
  }

  /** With two buttons: the lit LED's own button scores +1, the other one -1,
      both score when both are pressed, and any press switches the LED off
      and schedules the next one. */
  lemma {:induction false} PressTwoButtons(s: GameState, cfg: Config, now: int, pressed: seq<bool>)
    requires s.currentLed.Some? && s.currentLed.value < NumChannels && |pressed| == NumChannels
    ensures var c, r := s.currentLed.value, PressButtons(s, cfg, now, pressed);
      && r.score == s.score + (if pressed[c] then 1 else 0) - (if pressed[1 - c] then 1 else 0)
      && r.ledOn == (s.ledOn && !pressed[0] && !pressed[1])
      && r.nextLedTime == (if pressed[0] || pressed[1] then now + cfg.ledTime else s.nextLedTime)
  {
    var first := pressed[..1];
    assert first[..0] == [] && first[0] == pressed[0];
    assert PressButtons(s, cfg, now, first[..0]) == s;
    var r1 := PressButtons(s, cfg, now, first);
    assert r1 == if pressed[0] then s.(score := s.score + (if 0 == s.currentLed.value then 1 else -1),
                                      ledOn := false, nextLedTime := now + cfg.ledTime)
                 else s;
    assert PressButtons(s, cfg, now, pressed) ==
      if pressed[1] then r1.(score := r1.score + (if 1 == s.currentLed.value then 1 else -1),
                             ledOn := false, nextLedTime := now + cfg.ledTime)
      else r1;
  }

  /** The end test comes first: once a stop has been requested or the minute
      is up, the tick only leaves the loop, keeping the score and switching
      every LED off. */
  lemma {:induction false} SessionEndsWhenOver(s: GameState, cfg: Config, t: TickInput)
    requires Inv(s) && !s.ended && WellFormed(t) && SessionOver(s, cfg, t.now)
    ensures var r := Step(s, cfg, t);
      && r.ended && r.score == s.score
      && forall i :: 0 <= i < NumChannels ==> !Lit(r)[i]
  {
  }

  /** A stop requested during a tick ends the session at the top of the very
      next tick, whatever time remains. */
  lemma {:induction false} StopEndsNextTick(s: GameState, cfg: Config, t1: TickInput, t2: TickInput)
    requires Inv(s) && !s.ended && WellFormed(t1) && WellFormed(t2) && t1.stop
    ensures var r := Step(s, cfg, t1);
      r.ended || (Step(r, cfg, t2).ended && Step(r, cfg, t2).score == r.score)
  {
  }

  /** An LED is lit after a tick only if it was already lit (same channel,
      same start), or none was lit, the next one was due, and it is the
      chosen channel lit at this tick. */
  lemma {:induction false} LitLedOrigin(s: GameState, cfg: Config, t: TickInput)
    requires Inv(s) && !s.ended && WellFormed(t)
    ensures var r := Step(s, cfg, t);
      r.ledOn ==>
        || (s.ledOn && r.currentLed == s.currentLed && r.ledStart == s.ledStart)
        || (!s.ledOn && t.now >= s.nextLedTime && r.currentLed == Some(t.chosenChannel) && r.ledStart == t.now)
  {
    if !SessionOver(s, cfg, t.now) {
      var m := Sampled(s, cfg, t);
      if m.ledOn {
        PressTwoButtons(m, cfg, t.now, t.pressed);
      }
    }
  }

  /** When none is lit and one is due, the chosen LED is lit; it cannot
      expire in the tick that lit it, so it stays lit unless a button is
      pressed. */
  lemma {:induction false} ArmsWhenDue(s: GameState, cfg: Config, t: TickInput)
    requires Inv(s) && !s.ended && WellFormed(t) && !SessionOver(s, cfg, t.now) && cfg.ledTime > 0
    requires !s.ledOn && t.now >= s.nextLedTime
    ensures Sampled(s, cfg, t).ledOn && Sampled(s, cfg, t).currentLed == Some(t.chosenChannel)
    ensures var r := Step(s, cfg, t);
      !t.pressed[0] && !t.pressed[1] ==> r.ledOn && Lit(r)[t.chosenChannel] && r.ledStart == t.now
  {
    PressTwoButtons(Sampled(s, cfg, t), cfg, t.now, t.pressed);
  }

  /** A lit LED whose age reaches the on-time is switched off, the next one is
      scheduled an on-time later, and no button is scored in that tick. */
  lemma {:induction false} ExpiryScoresNothing(s: GameState, cfg: Config, t: TickInput)
    requires Inv(s) && !s.ended && WellFormed(t) && !SessionOver(s, cfg, t.now)
    requires s.ledOn && t.now - s.ledStart >= cfg.ledTime
    ensures var r := Step(s, cfg, t);
      !r.ledOn && r.nextLedTime == t.now + cfg.ledTime && r.score == s.score
  {
  }

  /** While an LED is lit when the buttons are read, each pressed button is
      scored against it: +1 for its own button, -1 for the other, and any
      press switches it off and schedules the next. */
  lemma {:induction false} ButtonsScoreAgainstLitLed(s: GameState, cfg: Config, t: TickInput)
    requires Inv(s) && !s.ended && WellFormed(t) && !SessionOver(s, cfg, t.now)
    requires Sampled(s, cfg, t).ledOn
    ensures var c, r := Sampled(s, cfg, t).currentLed.value, Step(s, cfg, t);
      && r.score == s.score + (if t.pressed[c] then 1 else 0) - (if t.pressed[1 - c] then 1 else 0)
      && r.ledOn == (!t.pressed[0] && !t.pressed[1])
      && (t.pressed[0] || t.pressed[1] ==> r.nextLedTime == t.now + cfg.ledTime)
  {
    PressTwoButtons(Sampled(s, cfg, t), cfg, t.now, t.pressed);
  }

  /** Presses while no LED is lit never change the score. */
  lemma {:induction false} DarkPressesIgnored(s: GameState, cfg: Config, t: TickInput)
    requires Inv(s) && !s.ended && WellFormed(t)
    requires !SessionOver(s, cfg, t.now) && !Sampled(s, cfg, t).ledOn
    ensures Step(s, cfg, t).score == s.score && !Step(s, cfg, t).ledOn
  {
  }

  /** One tick moves the score by at most one point. */
  lemma {:induction false} ScoreStepBounded(s: GameState, cfg: Config, t: TickInput)
    requires Inv(s) && !s.ended && WellFormed(t)
    ensures -1 <= Step(s, cfg, t).score - s.score <= 1
  {
    if !SessionOver(s, cfg, t.now) && Sampled(s, cfg, t).ledOn {
      PressTwoButtons(Sampled(s, cfg, t), cfg, t.now, t.pressed);
    }
  }

  /** Over any run of ticks the score moves by at most one point per tick. */
  lemma {:induction false} RunScoreBounded(s: GameState, cfg: Config, inputs: seq<TickInput>)
    requires Inv(s) && AllWellFormed(inputs)
    ensures -|inputs| <= Run(s, cfg, inputs).score - s.score <= |inputs|
    decreases |inputs|
  {
    if !s.ended && inputs != [] {
      ScoreStepBounded(s, cfg, inputs[0]);
      RunScoreBounded(Step(s, cfg, inputs[0]), cfg, inputs[1..]);
    }
  }

  /** The session is over, with every LED off, once a tick at or past the
      minute has been reached. */
  lemma {:induction false} RunEndsByDeadline(s: GameState, cfg: Config, inputs: seq<TickInput>, i: nat)
    requires Inv(s) && AllWellFormed(inputs)
    requires i < |inputs| && inputs[i].now - cfg.startTime >= GameDurationMs
    ensures Run(s, cfg, inputs).ended
    ensures forall j :: 0 <= j < NumChannels ==> !Lit(Run(s, cfg, inputs))[j]
    decreases i
  {
    if !s.ended {
      if i > 0 {
        RunEndsByDeadline(Step(s, cfg, inputs[0]), cfg, inputs[1..], i - 1);
      } else {
        assert Step(s, cfg, inputs[0]).ended;
      }
    }
  }

  /** A quick hit on level 1: play starts at -1000 ms, so the first LED is
      due at 0 ms; it lights on channel 0, and its button pressed at 400 ms
      gives one point, switches it off and schedules the next LED for
      1400 ms. */
  lemma {:induction false} QuickHitExample()
    ensures var cfg := ConfigFor(1, -1000);
      var lit0 := Step(Start(cfg), cfg, TickInput(0, 0, [false, false], false));
      var hit := Step(lit0, cfg, TickInput(400, 1, [true, false], false));
      && lit0.ledOn && lit0.currentLed == Some(0)
      && hit.score == 1 && !hit.ledOn && hit.nextLedTime == 1400
  {
    var cfg := ConfigFor(1, -1000);
    Levels.LedTimeTable();
    assert cfg.ledTime == 1000;
    var lit0 := Step(Start(cfg), cfg, TickInput(0, 0, [false, false], false));
    PressTwoButtons(Sampled(Start(cfg), cfg, TickInput(0, 0, [false, false], false)), cfg, 0, [false, false]);
    assert lit0.ledOn && lit0.ledStart == 0 && lit0.score == 0;
    var t := TickInput(400, 1, [true, false], false);
    assert Sampled(lit0, cfg, t) == lit0;
    PressTwoButtons(lit0, cfg, 400, [true, false]);
  }

  /** The running game: the loop's variables, the session constants and the
      two LED outputs. */
  class ReactionGame {
    /** `led_time`, from the level. */
    const ledTime: nat
    /** `start_time`, read after the countdown. */
    const startTime: int
    var ledOn: bool
    var currentLed: Option<nat>
    var ledStart: int
    var nextLedTime: int
    var score: int
    var stopRequested: bool
    /** The loop has been left. */
    var ended: bool
    /** `lit[i]` is the level last written to `led_pins[i]`. */
    const lit: array<bool>

    function Cfg(): Config {
      Config(ledTime, startTime)
    }

    ghost function State(): GameState
      reads this
    {
      GameState(ledOn, currentLed, ledStart, nextLedTime, score, stopRequested, ended)
    }

    /** The outputs always show exactly `Lit(State())`. */
    ghost predicate Valid()
      reads this, lit
    {
      && lit.Length == NumChannels
      && Inv(State())
      && lit[..] == Lit(State())
    }

    /** The start of `game_loop` on `level`, with the clock reading `now`
        taken when play begins. */
    constructor (level: int, now: int)
      ensures Valid() && fresh(lit)
      ensures Cfg() == ConfigFor(level, now)
      ensures State() == Start(Cfg())
    {
      ledTime := Levels.LedTime(level);
      startTime := now;
      ledOn := false;
      currentLed := None;
      ledStart := 0;
      nextLedTime := now + Levels.LedTime(level);
      score := 0;
      stopRequested := false;
      ended := false;
      lit := new bool[NumChannels](_ => false);
      new;
      assert lit[..] == Lit(State());
    }

    /** One iteration of the loop at clock reading `now`. */
    method Tick(now: int, chosenChannel: nat, pressed: seq<bool>, stop: bool)
      requires Valid() && !ended
      requires chosenChannel < NumChannels && |pressed| == NumChannels
      modifies this, lit
      ensures Valid()
      ensures State() == Step(old(State()), Cfg(), TickInput(now, chosenChannel, pressed, stop))
    {
      if stopRequested || now - startTime >= GameDurationMs {
        SwitchOffAndLeave();
        return;
      }
      ArmIfDue(now, chosenChannel);
      ExpireIfDue(now);
      if ledOn {
        ReadButtons(now, pressed);
      }
      if stop {
        stopRequested := true;
      }
    }

    /** After the loop: `GPIO.output(lp, False)` for every LED. */
    method SwitchOffAndLeave()
      requires Valid()
      modifies this, lit
      ensures Valid() && State() == Finish(old(State()))
    {
      for i := 0 to NumChannels
        invariant unchanged(this)
        invariant forall j :: 0 <= j < i ==> !lit[j]
      {
        lit[i] := false;
      }
      ledOn := false;
      ended := true;
      assert lit[..] == Lit(State());
    }

    method ArmIfDue(now: int, chosenChannel: nat)
      requires Valid() && !ended && chosenChannel < NumChannels
      modifies this, lit
      ensures Valid() && State() == Arm(old(State()), now, chosenChannel)
    {
      if !ledOn && now >= nextLedTime {
        currentLed := Some(chosenChannel);
        lit[chosenChannel] := true;
        ledOn := true;
        ledStart := now;
        assert lit[..] == Lit(State());
      }
    }

    method ExpireIfDue(now: int)
      requires Valid()
      modifies this, lit
      ensures Valid() && State() == Expire(old(State()), Cfg(), now)
    {
      if ledOn && now - ledStart >= ledTime {
        lit[currentLed.value] := false;
        ledOn := false;
        nextLedTime := now + ledTime;
        assert lit[..] == Lit(State());
      }
    }

    /** The `for` over the buttons while an LED is lit. */
    method ReadButtons(now: int, pressed: seq<bool>)
      requires Valid() && ledOn
      modifies this, lit
      ensures Valid() && State() == PressButtons(old(State()), Cfg(), now, pressed)
    {
      var c := currentLed.value;
      for i := 0 to |pressed|
        invariant State() == PressButtons(old(State()), Cfg(), now, pressed[..i])
        invariant Valid()
      {
        assert pressed[..i + 1][..i] == pressed[..i];
        if pressed[i] {
          if i == c {
            score := score + 1;
          } else {
            score := score - 1;
          }
          lit[c] := false;
          ledOn := false;
          nextLedTime := now + ledTime;
          assert lit[..] == Lit(State());
        }
      }
      assert pressed[..|pressed|] == pressed;
    }

    /** The whole `while not stop_requested` loop over the given ticks: it
        stops at the first tick that finds the session over, or when the
        ticks run out. */
    method Play(inputs: seq<TickInput>)
      requires Valid() && AllWellFormed(inputs)
      modifies this, lit
      ensures Valid()
      ensures State() == Run(old(State()), Cfg(), inputs)
    {
      var k := 0;
      while !ended && k < |inputs|
        invariant 0 <= k <= |inputs| && Valid()
        invariant Run(old(State()), Cfg(), inputs) == Run(State(), Cfg(), inputs[k..])
      {
        assert inputs[k..][1..] == inputs[k + 1..];
        var t := inputs[k];
        Tick(t.now, t.chosenChannel, t.pressed, t.stop);
        k := k + 1;
      }
    }
  }
}
