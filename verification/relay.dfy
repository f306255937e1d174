/** The relay and two-pin fan driver: error-gated switching, a timeout that
    switches a relay left on too long back off, the fan-speed pin encoding
    and the error-clearing rule. Every GPIO call is an explicit result code
    (0 is success) and the wall clock is a parameter in seconds. */
module Relay {
  import opened Common

  const IOT_SUCCESS: int := 0
  const IOT_FAILURE: int := -1

  const RELAY_GPIO_PIN: nat := 10
  const FAN_SPEED_PIN_1: nat := 11
  const FAN_SPEED_PIN_2: nat := 12

  /** A relay on for longer than this many ms is switched off. */
  const RELAY_PROTECT_TIMEOUT: nat := 5000

  const RELAY_STATE_OFF: nat := 0
  const RELAY_STATE_ON: nat := 1

  const FAN_SPEED_OFF: nat := 0
  const FAN_SPEED_LOW: nat := 1
  const FAN_SPEED_MEDIUM: nat := 2
  const FAN_SPEED_HIGH: nat := 3

  datatype RelayError = NoError | Overload | Timeout | Hardware

  /** The driver's globals: relay state code, fan speed code, error, and the
      millisecond stamp of the last successful switch-on. */
  datatype Driver = Driver(state: nat, fan: nat, error: RelayError, onTime: U32)

  const Boot := Driver(RELAY_STATE_OFF, FAN_SPEED_OFF, NoError, 0)

  /** `(uint32_t)time(NULL) * 1000`: the seconds clock truncated to 32 bits
      and scaled to ms, wrapping modulo 2^32. */
  function Millis(seconds: nat): U32 {
    ((seconds % UINT32_LIMIT) * 1000) % UINT32_LIMIT
  }

  // -----------------------------------------------------------------------
  // Fan pins

  datatype PinWrite = PinWrite(pin: nat, level: nat)

  /** `SetFanGpio`: the pin writes attempted for `speed` and the result.
      Pin 1 carries the low bit and pin 2 the high bit of the speed; pin 2
      is not written when pin 1 fails; any speed above HIGH fails with no
      write. `w1` and `w2` are the results of the two writes. */
  function SetFanGpio(speed: nat, w1: int, w2: int): (r: (seq<PinWrite>, int))
    ensures speed > FAN_SPEED_HIGH ==> r == ([], IOT_FAILURE)
    ensures speed <= FAN_SPEED_HIGH && w1 != IOT_SUCCESS ==> r.1 == w1 && |r.0| == 1
    ensures speed <= FAN_SPEED_HIGH && w1 == IOT_SUCCESS ==> r.1 == w2 && |r.0| == 2
    ensures speed <= FAN_SPEED_HIGH ==> r.0[0].pin == FAN_SPEED_PIN_1
    ensures |r.0| == 2 ==> r.0[1].pin == FAN_SPEED_PIN_2
  {
    var levels := if speed == FAN_SPEED_OFF then (0, 0)
                  else if speed == FAN_SPEED_LOW then (1, 0)
                  else if speed == FAN_SPEED_MEDIUM then (0, 1)
                  else (1, 1);
    if speed > FAN_SPEED_HIGH then ([], IOT_FAILURE)
    else if w1 != IOT_SUCCESS then ([PinWrite(FAN_SPEED_PIN_1, levels.0)], w1)
    else ([PinWrite(FAN_SPEED_PIN_1, levels.0), PinWrite(FAN_SPEED_PIN_2, levels.1)], w2)
  }

  /** The two pin levels read back as a binary number give the speed:
      OFF = (0,0), LOW = (1,0), MEDIUM = (0,1), HIGH = (1,1). */
  lemma FanEncodingRoundTrip(speed: nat, w2: int)
    requires speed <= FAN_SPEED_HIGH
    ensures var ws := SetFanGpio(speed, IOT_SUCCESS, w2).0;
            && ws[0].level <= 1 && ws[1].level <= 1
            && ws[0].level + 2 * ws[1].level == speed
  {
  }

  // -----------------------------------------------------------------------
  // Operations

  /** `RelayInit`. `gpioInit` is the first failing code of the six pin
      set-up calls (or 0); `relayWrite`, `fan1`, `fan2` answer the initial
      output writes. A set-up failure latches HARDWARE and changes nothing
      else; otherwise the driver is reset to OFF/OFF/NONE before the
      writes, and a failing write latches HARDWARE. */
  function Init(d: Driver, gpioInit: int, relayWrite: int, fan1: int, fan2: int): (r: (Driver, int))
    ensures gpioInit != IOT_SUCCESS ==> r == (d.(error := Hardware), gpioInit)
    ensures gpioInit == IOT_SUCCESS ==> r.0.state == RELAY_STATE_OFF && r.0.fan == FAN_SPEED_OFF
    ensures r.1 == IOT_SUCCESS <==>
              gpioInit == IOT_SUCCESS && relayWrite == IOT_SUCCESS && fan1 == IOT_SUCCESS && fan2 == IOT_SUCCESS
    ensures r.1 == IOT_SUCCESS ==> r.0.error == NoError
    ensures gpioInit == IOT_SUCCESS && r.1 != IOT_SUCCESS ==> r.0.error == Hardware
  {
    if gpioInit != IOT_SUCCESS then (d.(error := Hardware), gpioInit)
    else
      var reset := d.(state := RELAY_STATE_OFF, fan := FAN_SPEED_OFF, error := NoError);
      if relayWrite != IOT_SUCCESS then (reset.(error := Hardware), relayWrite)
      else
        var fan := SetFanGpio(FAN_SPEED_OFF, fan1, fan2);
        if fan.1 != IOT_SUCCESS then (reset.(error := Hardware), fan.1)
        else (reset, IOT_SUCCESS)
  }

  /** `RelaySetState`: switching ON is refused while any error is set
      (switching OFF is always attempted); a failed pin write latches
      HARDWARE and keeps the recorded state; a successful ON stamps the
      switch-on time. */
  function SetState(d: Driver, state: nat, write: int, seconds: nat): (r: (Driver, int))
    ensures d.error != NoError && state == RELAY_STATE_ON ==> r == (d, IOT_FAILURE)
    ensures !(d.error != NoError && state == RELAY_STATE_ON) ==>
              && (write != IOT_SUCCESS ==> r == (d.(error := Hardware), write))
              && (write == IOT_SUCCESS ==>
                    && r.1 == IOT_SUCCESS && r.0.state == state && r.0.fan == d.fan && r.0.error == d.error
                    && r.0.onTime == if state == RELAY_STATE_ON then Millis(seconds) else d.onTime)
  {
    if d.error != NoError && state == RELAY_STATE_ON then (d, IOT_FAILURE)
    else if write != IOT_SUCCESS then (d.(error := Hardware), write)
    else
      var d' := d.(state := state);
      (if state == RELAY_STATE_ON then d'.(onTime := Millis(seconds)) else d', IOT_SUCCESS)
  }

  /** The relay has been on longer than the protection timeout, measured
      with 32-bit wrapping subtraction. */
  predicate Expired(d: Driver, seconds: nat) {
    d.state == RELAY_STATE_ON && Sub32(Millis(seconds), d.onTime) > RELAY_PROTECT_TIMEOUT
  }

  /** `CheckRelayStatus` followed by reading the state, as written: an
      expired relay is switched off (`write` answers that pin write) and
      the error is then set to TIMEOUT, whatever it was. */
  function GetStateAsWritten(d: Driver, seconds: nat, write: int): (r: (Driver, nat))
    ensures !Expired(d, seconds) ==> r == (d, d.state)
    ensures Expired(d, seconds) ==> r.0.error == Timeout && r.1 == r.0.state
  {
    if !Expired(d, seconds) then (d, d.state)
    else
      var off := SetState(d, RELAY_STATE_OFF, write, seconds).0.(error := Timeout);
      (off, off.state)
  }

  /** `RelayClearError`: HARDWARE cannot be cleared; anything else is reset,
      after which the relay may be switched on again. Only the error
      changes. */
  function ClearError(d: Driver): (r: (Driver, int))
    ensures r.0 == d.(error := r.0.error)
    ensures r.1 == IOT_SUCCESS <==> d.error != Hardware
    ensures r.1 != IOT_SUCCESS ==> r == (d, IOT_FAILURE)
    ensures r.0.error == NoError || r.0.error == Hardware
    ensures r.1 == IOT_SUCCESS ==>
              forall seconds: nat :: SetState(r.0, RELAY_STATE_ON, IOT_SUCCESS, seconds).1 == IOT_SUCCESS
  {
    if d.error == Hardware then (d, IOT_FAILURE) else (d.(error := NoError), IOT_SUCCESS)
  }

  /** As written, a hardware fault on an ON relay is replaced by TIMEOUT once
      the relay expires, and then cleared by software. */
  lemma HardwareClearedAsWritten()
    ensures var d := Driver(RELAY_STATE_ON, FAN_SPEED_OFF, Hardware, 0);
            var checked := GetStateAsWritten(d, 6, IOT_SUCCESS).0;
            && checked.error == Timeout
            && ClearError(checked) == (checked.(error := NoError), IOT_SUCCESS)
  {
    assert Millis(6) == 6000;
  }

  /** `RelayGetState` with the hardware fault kept: an expired relay is
      switched off and marked TIMEOUT unless a hardware fault (including
      one raised by that very switch-off) is recorded, which stays. */
  function GetState(d: Driver, seconds: nat, write: int): (r: (Driver, nat))
    ensures r.1 == r.0.state
    ensures !Expired(d, seconds) ==> r.0 == d
    ensures Expired(d, seconds) && write == IOT_SUCCESS ==> r.0.state == RELAY_STATE_OFF
    ensures Expired(d, seconds) && write != IOT_SUCCESS ==> r.0.state == d.state
    ensures Expired(d, seconds) ==>
              r.0.error == if d.error == Hardware || write != IOT_SUCCESS then Hardware else Timeout
    ensures r.0.fan == d.fan
  {
    if !Expired(d, seconds) then (d, d.state)
    else
      var off := SetState(d, RELAY_STATE_OFF, write, seconds).0;
      var d' := if off.error == Hardware then off else off.(error := Timeout);
      (d', d'.state)
  }

  /** `RelaySetFanSpeed`: refused whenever any error is set; a failing pin
      write or an unknown speed latches HARDWARE and keeps the recorded
      speed. */
  function SetFanSpeed(d: Driver, speed: nat, w1: int, w2: int): (r: (Driver, int))
    ensures d.error != NoError ==> r == (d, IOT_FAILURE)
    ensures d.error == NoError ==>
              && (r.1 == IOT_SUCCESS <==> speed <= FAN_SPEED_HIGH && w1 == IOT_SUCCESS && w2 == IOT_SUCCESS)
              && (r.1 == IOT_SUCCESS ==> r.0 == d.(fan := speed))
              && (r.1 != IOT_SUCCESS ==> r.0 == d.(error := Hardware))
  {
    if d.error != NoError then (d, IOT_FAILURE)
    else
      var pins := SetFanGpio(speed, w1, w2);
      if pins.1 != IOT_SUCCESS then (d.(error := Hardware), pins.1)
      else (d.(fan := speed), IOT_SUCCESS)
  }

  /** `RelayDeinit`: switch off, stop the fan (both refusals and failures
      ignored), then release the pins; `release` is the first failing
      release code (or 0). */
  function Deinit(d: Driver, relayWrite: int, fan1: int, fan2: int, seconds: nat, release: int)
    : (r: (Driver, int))
    ensures r.1 == release
    ensures relayWrite == IOT_SUCCESS ==> r.0.state == RELAY_STATE_OFF
    ensures d.error == NoError && relayWrite == IOT_SUCCESS && fan1 == IOT_SUCCESS && fan2 == IOT_SUCCESS
            ==> r.0.fan == FAN_SPEED_OFF && r.0.error == NoError
    ensures d.error != NoError || relayWrite != IOT_SUCCESS ==> r.0.fan == d.fan && r.0.error != NoError
  {
    var off := SetState(d, RELAY_STATE_OFF, relayWrite, seconds).0;
    (SetFanSpeed(off, FAN_SPEED_OFF, fan1, fan2).0, release)
  }

  // -----------------------------------------------------------------------
  // Properties

  /** The operations a client can issue, with the collaborator answers
      each one receives. */
  datatype Op =
    | SetStateOp(state: nat, write: int, seconds: nat)
    | GetStateOp(seconds: nat, write: int)
    | SetFanOp(speed: nat, w1: int, w2: int)
    | ClearOp

  function Apply(d: Driver, op: Op): Driver {
    match op
    case SetStateOp(s, w, t) => SetState(d, s, w, t).0
    case GetStateOp(t, w) => GetState(d, t, w).0
    case SetFanOp(s, w1, w2) => SetFanSpeed(d, s, w1, w2).0
    case ClearOp => ClearError(d).0
  }

  function Run(d: Driver, ops: seq<Op>): Driver
    decreases |ops|
  {
    if ops == [] then d else Run(Apply(d, ops[0]), ops[1..])
  }

  /** A hardware fault is never cleared by software: whatever is issued
      afterwards, the error stays HARDWARE, the relay is never switched on
      and the fan speed never changes. */
  lemma {:induction false} HardwareIsPermanent(d: Driver, ops: seq<Op>)
    requires d.error == Hardware
    ensures Run(d, ops).error == Hardware
    ensures Run(d, ops).fan == d.fan
    ensures d.state != RELAY_STATE_ON ==> Run(d, ops).state != RELAY_STATE_ON
    decreases |ops|
  {
    if ops != [] {
      var next := Apply(d, ops[0]);
      assert next.error == Hardware && next.fan == d.fan;
      assert d.state != RELAY_STATE_ON ==> next.state != RELAY_STATE_ON;
      HardwareIsPermanent(next, ops[1..]);
    }
  }

  /** A relay switched on at second 100 is still on at second 105 and is
      switched off with TIMEOUT at second 106; switching it on again is
      refused until the error is cleared. */
  lemma TimeoutExample()
    ensures var on := SetState(Boot, RELAY_STATE_ON, IOT_SUCCESS, 100).0;
            && GetState(on, 105, IOT_SUCCESS).0 == on
            && var off := GetState(on, 106, IOT_SUCCESS).0;
            && off.state == RELAY_STATE_OFF && off.error == Timeout
            && SetState(off, RELAY_STATE_ON, IOT_SUCCESS, 107).1 == IOT_FAILURE
            && SetState(ClearError(off).0, RELAY_STATE_ON, IOT_SUCCESS, 107).1 == IOT_SUCCESS
  {
    assert Millis(100) == 100000;
    assert Millis(105) == 105000;
    assert Millis(106) == 106000;
  }
}
