/** The buzzer driver: the stored PWM frequency, the playing flag that
    guards against overlapping effects, and the PWM calls each effect
    makes. The PWM port is observed as the sequence of actions issued to
    it; the results of the port calls made inside an effect are ignored by
    the driver and so do not appear. */
module Buzzer {
  import opened Common

  const IOT_SUCCESS: int := 0
  const IOT_FAILURE: int := -1

  const DEFAULT_FREQUENCY: U32 := 2000
  const BEEP_DURATION: nat := 200
  const BEEP_INTERVAL: nat := 100
  const DUTY: nat := 50
  const MICROS_PER_SECOND: nat := 1000000

  const ALERT_HIGH_FREQUENCY: U32 := 2000
  const ALERT_LOW_FREQUENCY: U32 := 1500

  const BUZZER_MODE_SINGLE_BEEP: nat := 0
  const BUZZER_MODE_DOUBLE_BEEP: nat := 1
  const BUZZER_MODE_CONTINUOUS: nat := 2
  const BUZZER_MODE_SOS: nat := 3
  const BUZZER_MODE_ALERT: nat := 4

  /** `g_current_frequency` and `g_is_playing`. */
  datatype Buzzer = Buzzer(frequency: U32, playing: bool)

  const Boot := Buzzer(DEFAULT_FREQUENCY, false)

  /** The frequency is never 0, so the period division is always defined. */
  predicate Valid(b: Buzzer) {
    b.frequency > 0
  }

  /** What the PWM port is told to do, and the waits between. */
  datatype Action = PwmStart(duty: nat, period: nat) | PwmStop | Delay(ms: nat)

  /** `BuzzerInit`: pin multiplexing then PWM set-up, fail-fast; their
      results are parameters. */
  function Init(ioRet: int, pwmRet: int): (r: int)
    ensures r == IOT_SUCCESS <==> ioRet == IOT_SUCCESS && pwmRet == IOT_SUCCESS
    ensures ioRet != IOT_SUCCESS ==> r == ioRet
  {
    if ioRet != IOT_SUCCESS then ioRet else pwmRet
  }

  /** `BuzzerSetFrequency`: 0 is rejected and leaves the frequency; any
      other value is stored. */
  function SetFrequency(b: Buzzer, frequency: U32): (r: (Buzzer, int))
    ensures frequency == 0 ==> r == (b, IOT_FAILURE)
    ensures frequency != 0 ==> r == (b.(frequency := frequency), IOT_SUCCESS)
    ensures Valid(b) ==> Valid(r.0)
  {
    if frequency == 0 then (b, IOT_FAILURE) else (b.(frequency := frequency), IOT_SUCCESS)
  }

  /** The PWM period in microseconds for a frequency in Hz, rounded down. */
  function Period(frequency: U32): (p: nat)
    requires frequency > 0
    ensures p * frequency <= MICROS_PER_SECOND < (p + 1) * frequency
  {
    DivBounds(MICROS_PER_SECOND, frequency);
    MICROS_PER_SECOND / frequency
  }

  lemma DivBounds(a: nat, d: nat)
    requires d > 0
    ensures (a / d) * d <= a < (a / d + 1) * d
  {
  }

  /** `BuzzerOn`: start the port at 50% duty with the current period. */
  function On(b: Buzzer): (a: Action)
    requires Valid(b)
    ensures a.PwmStart? && a.duty == DUTY && a.period * b.frequency <= MICROS_PER_SECOND
  {
    PwmStart(DUTY, Period(b.frequency))
  }

  function Beep(b: Buzzer, ms: nat): seq<Action>
    requires Valid(b)
  {
    [On(b), Delay(ms), PwmStop]
  }

  function Repeat(pattern: seq<Action>, n: nat): (r: seq<Action>)
    ensures |r| == n * |pattern|
  {
    if n == 0 then [] else Repeat(pattern, n - 1) + pattern
  }

  /** The actions of one effect and the frequency it leaves behind. */
  function Effect(b: Buzzer, mode: nat): (r: (seq<Action>, U32))
    requires Valid(b) && mode <= BUZZER_MODE_ALERT
    ensures r.1 > 0
  {
    if mode == BUZZER_MODE_SINGLE_BEEP then (Beep(b, BEEP_DURATION), b.frequency)
    else if mode == BUZZER_MODE_DOUBLE_BEEP then
      (Beep(b, BEEP_DURATION) + [Delay(BEEP_INTERVAL)] + Beep(b, BEEP_DURATION), b.frequency)
    else if mode == BUZZER_MODE_CONTINUOUS then ([On(b)], b.frequency)
    else if mode == BUZZER_MODE_SOS then
      var short := Beep(b, 200) + [Delay(200)];
      var long := Beep(b, 600) + [Delay(200)];
      (Repeat(short, 3) + [Delay(400)] + Repeat(long, 3) + [Delay(400)] + Repeat(short, 3), b.frequency)
    else
      // Each round sets 2000 Hz, starts, waits, sets 1500 Hz and waits; the
      // 1500 Hz setting is never sounded, but it is what remains stored.
      var high := b.(frequency := ALERT_HIGH_FREQUENCY);
      (Repeat([On(high), Delay(300), Delay(300)], 3) + [PwmStop], ALERT_LOW_FREQUENCY)
  }

  /** `BuzzerPlayMode`: refused while playing; an unknown mode fails and
      leaves the flag cleared; every effect except CONTINUOUS clears the
      flag when it ends. */
  function PlayMode(b: Buzzer, mode: nat): (r: (Buzzer, seq<Action>, int))
    requires Valid(b)
    ensures b.playing ==> r == (b, [], IOT_FAILURE)
    ensures !b.playing && mode > BUZZER_MODE_ALERT ==> r == (b, [], IOT_FAILURE)
    ensures !b.playing && mode <= BUZZER_MODE_ALERT ==>
              r.2 == IOT_SUCCESS && r.0.playing == (mode == BUZZER_MODE_CONTINUOUS)
    ensures Valid(r.0)
  {
    if b.playing then (b, [], IOT_FAILURE)
    else if mode > BUZZER_MODE_ALERT then (b.(playing := false), [], IOT_FAILURE)
    else
      var (actions, frequency) := Effect(b, mode);
      (Buzzer(frequency, mode == BUZZER_MODE_CONTINUOUS), actions, IOT_SUCCESS)
  }

  /** `BuzzerStop`: clears the flag and stops the port; the result is the
      port's. The stored frequency survives, the port is left silent, and
      every known effect may be started again. */
  function Stop(b: Buzzer, stopRet: int): (r: (Buzzer, seq<Action>, int))
    ensures !r.0.playing && r.0.frequency == b.frequency && r.2 == stopRet
    ensures !Sounding(r.1)
    ensures Valid(b) ==> forall m: nat :: m <= BUZZER_MODE_ALERT ==> PlayMode(r.0, m).2 == IOT_SUCCESS
  {
    (b.(playing := false), [PwmStop], stopRet)
  }

  // -----------------------------------------------------------------------
  // Properties

  /** The port is left sounding: its last start/stop action is a start. */
  predicate Sounding(actions: seq<Action>)
    decreases |actions|
  {
    if actions == [] then false
    else if actions[|actions| - 1].PwmStart? then true
    else if actions[|actions| - 1].PwmStop? then false
    else Sounding(actions[..|actions| - 1])
  }

  /** The playing flag tells the truth: after an accepted effect the port
      is left sounding exactly when the flag stays set. */
  lemma PlayingMeansSounding(b: Buzzer, mode: nat)
    requires Valid(b) && !b.playing && mode <= BUZZER_MODE_ALERT
    ensures Sounding(PlayMode(b, mode).1) <==> PlayMode(b, mode).0.playing
  {
    var actions := PlayMode(b, mode).1;
    if mode == BUZZER_MODE_SOS {
      var short := Beep(b, 200) + [Delay(200)];
      var n := |actions|;
      assert actions[n - 1] == Delay(200);
      assert actions[..n - 1][n - 2] == PwmStop;
    }
  }

  /** Total waiting time of an effect, in ms. */
  function Duration(actions: seq<Action>): nat {
    if actions == [] then 0
    else (if actions[0].Delay? then actions[0].ms else 0) + Duration(actions[1..])
  }

  lemma DurationCons(x: Action, rest: seq<Action>)
    ensures Duration([x] + rest) == (if x.Delay? then x.ms else 0) + Duration(rest)
  {
    assert ([x] + rest)[1..] == rest;
  }

  lemma {:induction false} DurationConcat(a: seq<Action>, c: seq<Action>)
    ensures Duration(a + c) == Duration(a) + Duration(c)
  {
    if a != [] {
      assert a == [a[0]] + a[1..];
      assert a + c == [a[0]] + (a[1..] + c);
      DurationCons(a[0], a[1..] + c);
      DurationCons(a[0], a[1..]);
      DurationConcat(a[1..], c);
    } else {
      assert a + c == c;
    }
  }

  /** The duration of three actions. */
  lemma DurationThree(x: Action, y: Action, z: Action)
    ensures Duration([x, y, z]) ==
              (if x.Delay? then x.ms else 0) + (if y.Delay? then y.ms else 0) + (if z.Delay? then z.ms else 0)
  {
    assert [x, y, z] == [x] + ([y] + [z]);
    DurationCons(x, [y] + [z]);
    DurationCons(y, [z]);
    DurationCons(z, []);
  }

  lemma {:induction false} DurationRepeat(pattern: seq<Action>, n: nat)
    ensures Duration(Repeat(pattern, n)) == n * Duration(pattern)
  {
    if n > 0 {
      var d := Duration(pattern);
      DurationRepeat(pattern, n - 1);
      DurationConcat(Repeat(pattern, n - 1), pattern);
      assert (n - 1) * d + d == n * d;
    }
  }

  lemma {:induction false} RepeatFirst(pattern: seq<Action>, n: nat)
    requires n > 0 && pattern != []
    ensures Repeat(pattern, n)[0] == pattern[0]
  {
    if n > 1 {
      RepeatFirst(pattern, n - 1);
    }
  }

  /** How long each effect keeps `BuzzerPlayMode` busy: 200 ms, 500 ms,
      none for CONTINUOUS, 5.6 s for SOS and 1.8 s for ALERT. */
  lemma EffectDurations(b: Buzzer)
    requires Valid(b)
    ensures Duration(Effect(b, BUZZER_MODE_SINGLE_BEEP).0) == 200
    ensures Duration(Effect(b, BUZZER_MODE_DOUBLE_BEEP).0) == 500
    ensures Duration(Effect(b, BUZZER_MODE_CONTINUOUS).0) == 0
    ensures Duration(Effect(b, BUZZER_MODE_SOS).0) == 5600
    ensures Duration(Effect(b, BUZZER_MODE_ALERT).0) == 1800
  {
    var beep := Beep(b, BEEP_DURATION);
    DurationThree(On(b), Delay(BEEP_DURATION), PwmStop);
    DurationThree(On(b), Delay(600), PwmStop);
    DurationCons(Delay(BEEP_INTERVAL), []);
    DurationCons(Delay(200), []);
    DurationCons(Delay(400), []);
    DurationCons(PwmStop, []);
    DurationConcat(beep, [Delay(BEEP_INTERVAL)]);
    DurationConcat(beep + [Delay(BEEP_INTERVAL)], beep);
    var short := Beep(b, 200) + [Delay(200)];
    var long := Beep(b, 600) + [Delay(200)];
    DurationConcat(Beep(b, 200), [Delay(200)]);
    DurationConcat(Beep(b, 600), [Delay(200)]);
    DurationRepeat(short, 3);
    DurationRepeat(long, 3);
    var s1 := Repeat(short, 3) + [Delay(400)];
    var s2 := s1 + Repeat(long, 3);
    var s3 := s2 + [Delay(400)];
    DurationConcat(Repeat(short, 3), [Delay(400)]);
    DurationConcat(s1, Repeat(long, 3));
    DurationConcat(s2, [Delay(400)]);
    DurationConcat(s3, Repeat(short, 3));
    var high := b.(frequency := ALERT_HIGH_FREQUENCY);
    var round := [On(high), Delay(300), Delay(300)];
    DurationThree(On(high), Delay(300), Delay(300));
    DurationRepeat(round, 3);
    DurationConcat(Repeat(round, 3), [PwmStop]);
  }

  /** ALERT sounds only at 2000 Hz (a 500 us period) but leaves 1500 Hz
      stored, so the next effect sounds at 1500 Hz. */
  lemma AlertLeavesLowFrequency(b: Buzzer)
    requires Valid(b) && !b.playing
    ensures var (after, actions, ret) := PlayMode(b, BUZZER_MODE_ALERT);
            && ret == IOT_SUCCESS && after == Buzzer(ALERT_LOW_FREQUENCY, false)
            && actions[0] == PwmStart(DUTY, 500)
            && PlayMode(after, BUZZER_MODE_SINGLE_BEEP).1[0] == PwmStart(DUTY, 666)
  {
    var high := b.(frequency := ALERT_HIGH_FREQUENCY);
    RepeatFirst([On(high), Delay(300), Delay(300)], 3);
  }

  /** The client operations, with the port results they receive. */
  datatype Op = SetFrequencyOp(frequency: U32) | PlayOp(mode: nat) | StopOp(stopRet: int)

  function Apply(b: Buzzer, op: Op): (r: Buzzer)
    requires Valid(b)
    ensures Valid(r)
  {
    match op
    case SetFrequencyOp(f) => SetFrequency(b, f).0
    case PlayOp(m) => PlayMode(b, m).0
    case StopOp(ret) => Stop(b, ret).0
  }

  function Run(b: Buzzer, ops: seq<Op>): Buzzer
    requires Valid(b)
    decreases |ops|
  {
    if ops == [] then b else Run(Apply(b, ops[0]), ops[1..])
  }

  /** Whatever a client does from boot, the frequency never becomes 0, so
      every `BuzzerOn` divides by a positive number. */
  lemma {:induction false} FrequencyNeverZero(b: Buzzer, ops: seq<Op>)
    requires Valid(b)
    ensures Valid(Run(b, ops))
    decreases |ops|
  {
    if ops != [] {
      FrequencyNeverZero(Apply(b, ops[0]), ops[1..]);
    }
  }

  /** Once CONTINUOUS is playing, every effect is refused until a stop. */
  lemma ContinuousBlocksUntilStop(b: Buzzer, mode: nat, other: nat)
    requires Valid(b) && !b.playing
    ensures var playing := PlayMode(b, BUZZER_MODE_CONTINUOUS).0;
            && PlayMode(playing, other).2 == IOT_FAILURE
            && (other <= BUZZER_MODE_ALERT ==> PlayMode(Stop(playing, IOT_SUCCESS).0, other).2 == IOT_SUCCESS)
  {
  }
}
