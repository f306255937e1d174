/** The device state and recovery manager: system and network state codes,
    a per-device Offline/Online/Error machine with error and retry
    counters, bounded callback lists, and the periodic recovery pass that
    re-probes failed devices. The KV store, the recovery timer, the tick
    clock and the device probes are explicit inputs. */
module StateManager {
  import opened Common

  const MAX_CALLBACKS: nat := 8

  const SYSTEM_STATE_INIT: nat := 0
  const SYSTEM_STATE_MAX: nat := 4

  const NETWORK_STATE_DISCONNECTED: nat := 0
  const NETWORK_STATE_CONNECTED: nat := 2
  const NETWORK_STATE_MAX: nat := 4

  const DEVICE_STATE_OFFLINE: nat := 0
  const DEVICE_STATE_ONLINE: nat := 1
  const DEVICE_STATE_ERROR: nat := 2
  const DEVICE_STATE_MAX: nat := 3

  const DEVICE_TYPE_DHT11: nat := 0
  const DEVICE_TYPE_MQ2: nat := 1
  const DEVICE_TYPE_BH1750: nat := 2
  const DEVICE_TYPE_LED: nat := 3
  const DEVICE_TYPE_BUZZER: nat := 4
  const DEVICE_TYPE_MAX: nat := 5

  datatype StateError = NoError | ParamError | StorageError | DeviceError | NetworkError

  /** A registered observer: the function pointer (0 stands for NULL) and
      the argument it is called with. Calling it is recorded as the pair
      itself. */
  datatype Callback = Callback(fn: nat, arg: nat)

  datatype DeviceStatus = DeviceStatus(
    state: nat,
    errorCount: U32,
    lastErrorTime: U32,
    retryCount: U32,
    callbacks: seq<Callback>)

  datatype Config = Config(autoRecovery: bool, recoveryInterval: U32, maxRetryCount: U32)

  /** `timer` says whether the periodic recovery timer exists. */
  datatype Manager = Manager(
    system: nat,
    network: nat,
    devices: seq<DeviceStatus>,
    error: StateError,
    config: Config,
    timer: bool)

  /** What the collaborators a diagnosis calls would answer right now: the
      three sensor reads, switching the LED off and muting the buzzer. */
  datatype Probes = Probes(dht11Read: bool, mq2Read: bool, bh1750Read: bool,
                           ledOff: bool, buzzerMute: bool)

  predicate DeviceValid(d: DeviceStatus) {
    && d.state < DEVICE_STATE_MAX
    && |d.callbacks| <= MAX_CALLBACKS
    && forall i :: 0 <= i < |d.callbacks| ==> d.callbacks[i].fn != 0
  }

  predicate Valid(m: Manager) {
    && m.system < SYSTEM_STATE_MAX
    && m.network < NETWORK_STATE_MAX
    && |m.devices| == DEVICE_TYPE_MAX
    && forall d :: 0 <= d < DEVICE_TYPE_MAX ==> DeviceValid(m.devices[d])
  }

  /** Everything else about the manager is as in `m`; only device `d` may differ. */
  predicate OnlyDeviceChanged(m: Manager, r: Manager, d: nat)
    requires Valid(m) && Valid(r) && d < DEVICE_TYPE_MAX
  {
    && r.system == m.system && r.network == m.network
    && r.config == m.config && r.timer == m.timer
    && forall k :: 0 <= k < DEVICE_TYPE_MAX && k != d ==> r.devices[k] == m.devices[k]
  }

  function OfflineDevice(): DeviceStatus {
    DeviceStatus(DEVICE_STATE_OFFLINE, 0, 0, 0, [])
  }

  /** The manager after the reset at the top of `StateManagerInit`, before
      any timer is created and before the stored snapshot is loaded. */
  function Initial(cfg: Config): Manager {
    Manager(SYSTEM_STATE_INIT, NETWORK_STATE_DISCONNECTED,
            seq(DEVICE_TYPE_MAX, _ => OfflineDevice()), NoError, cfg, false)
  }

  /** The calls a state change makes: every non-NULL callback, in
      registration order. */
  function Notify(cbs: seq<Callback>): (calls: seq<Callback>)
    ensures |calls| <= |cbs|
    ensures forall i :: 0 <= i < |calls| ==> calls[i].fn != 0 && calls[i] in cbs
    ensures (forall i :: 0 <= i < |cbs| ==> cbs[i].fn != 0) ==> calls == cbs
  {
    if cbs == [] then []
    else (if cbs[0].fn != 0 then [cbs[0]] else []) + Notify(cbs[1..])
  }

  // -----------------------------------------------------------------------
  // Persistence

  /** `StateManagerSave`: the KV write either succeeds or latches STORAGE. */
  function Save(m: Manager, saveOk: bool): (r: (Manager, int))
    ensures r.1 == 0 <==> saveOk
    ensures saveOk ==> r.0 == m
    ensures !saveOk ==> r.0 == m.(error := StorageError)
  {
    if saveOk then (m, 0) else (m.(error := StorageError), -1)
  }

  /** `StateManagerLoad`: a read failure latches STORAGE; a stored snapshot
      replaces the whole manager. The snapshot is one an earlier save of a
      valid manager wrote. */
  function Load(m: Manager, stored: Option<Manager>): (r: (Manager, int))
    requires Valid(m) && (stored.Some? ==> Valid(stored.value))
    ensures Valid(r.0)
    ensures r.1 == 0 <==> stored.Some?
    ensures stored.Some? ==> r.0 == stored.value
    ensures stored.None? ==> r.0 == m.(error := StorageError)
  {
    match stored
    case None => (m.(error := StorageError), -1)
    case Some(s) => (s, 0)
  }

  /** `StateManagerInit`: a missing configuration is refused with nothing
      changed. Otherwise the manager is reset to `Initial`; with automatic
      recovery a recovery timer must be created (failure returns -1 with
      no timer); finally the stored snapshot is loaded, whose outcome does
      not affect the result. */
  function Init(m: Manager, config: Option<Config>, timerOk: bool, stored: Option<Manager>)
    : (r: (Manager, int))
    requires Valid(m) && (stored.Some? ==> Valid(stored.value))
    ensures Valid(r.0)
    ensures config.None? ==> r == (m, -1)
    ensures config.Some? && config.value.autoRecovery && !timerOk ==>
              r == (Initial(config.value), -1)
    ensures config.Some? && (timerOk || !config.value.autoRecovery) ==>
              && r.1 == 0
              && (stored.Some? ==> r.0 == stored.value)
              && (stored.None? ==> r.0 == Initial(config.value).(timer := config.value.autoRecovery,
                                                                   error := StorageError))
  {
    if config.None? then (m, -1)
    else
      var base := Initial(config.value);
      if config.value.autoRecovery && !timerOk then (base, -1)
      else (Load(base.(timer := config.value.autoRecovery), stored).0, 0)
  }

  /** The state right after initialisation, before the snapshot is loaded:
      system INIT, network DISCONNECTED, every device OFFLINE with zero
      counters and no callbacks. */
  lemma InitialIsReset(cfg: Config)
    ensures Valid(Initial(cfg))
    ensures Initial(cfg).system == SYSTEM_STATE_INIT
    ensures Initial(cfg).network == NETWORK_STATE_DISCONNECTED
    ensures forall d :: 0 <= d < DEVICE_TYPE_MAX ==>
              && GetDeviceState(Initial(cfg), d) == DEVICE_STATE_OFFLINE
              && !IsDeviceOnline(Initial(cfg), d)
              && GetDeviceErrorCount(Initial(cfg), d) == 0
              && Initial(cfg).devices[d].retryCount == 0
              && Initial(cfg).devices[d].callbacks == []
  {
  }

  /** `StateManagerDeinit`: drop the timer and save; always returns 0. */
  function Deinit(m: Manager, saveOk: bool): (r: (Manager, int))
    requires Valid(m)
    ensures Valid(r.0) && r.1 == 0 && !r.0.timer
    ensures r.0.devices == m.devices && r.0.system == m.system && r.0.network == m.network
    ensures r.0.error == if saveOk then m.error else StorageError
  {
    (Save(m.(timer := false), saveOk).0, 0)
  }

  // -----------------------------------------------------------------------
  // System, network and device state

  /** `StateManagerSetSystemState`: codes at or above 4 latch PARAM;
      otherwise store and return the save's result. */
  function SetSystemState(m: Manager, state: nat, saveOk: bool): (r: (Manager, int))
    requires Valid(m)
    ensures Valid(r.0) && r.0.devices == m.devices && r.0.network == m.network
    ensures state >= SYSTEM_STATE_MAX ==> r == (m.(error := ParamError), -1)
    ensures state < SYSTEM_STATE_MAX ==>
              && r.0.system == state
              && (r.1 == 0 <==> saveOk)
              && r.0.error == if saveOk then m.error else StorageError
  {
    if state >= SYSTEM_STATE_MAX then (m.(error := ParamError), -1)
    else Save(m.(system := state), saveOk)
  }

  /** `StateManagerSetNetworkState`: as for the system state. */
  function SetNetworkState(m: Manager, state: nat, saveOk: bool): (r: (Manager, int))
    requires Valid(m)
    ensures Valid(r.0) && r.0.devices == m.devices && r.0.system == m.system
    ensures state >= NETWORK_STATE_MAX ==> r == (m.(error := ParamError), -1)
    ensures state < NETWORK_STATE_MAX ==>
              && r.0.network == state
              && (r.1 == 0 <==> saveOk)
              && r.0.error == if saveOk then m.error else StorageError
  {
    if state >= NETWORK_STATE_MAX then (m.(error := ParamError), -1)
    else Save(m.(network := state), saveOk)
  }

  /** `StateManagerIsNetworkConnected`. */
  function IsNetworkConnected(m: Manager): bool {
    m.network == NETWORK_STATE_CONNECTED
  }

  /** `StateManagerGetDeviceState`: an unknown device reads as ERROR. */
  function GetDeviceState(m: Manager, device: nat): nat
    requires Valid(m)
  {
    if device >= DEVICE_TYPE_MAX then DEVICE_STATE_ERROR else m.devices[device].state
  }

  /** `StateManagerIsDeviceOnline`: an unknown device is never online. */
  function IsDeviceOnline(m: Manager, device: nat): bool
    requires Valid(m)
  {
    device < DEVICE_TYPE_MAX && m.devices[device].state == DEVICE_STATE_ONLINE
  }

  /** `StateManagerGetDeviceErrorCount`: an unknown device reads 0. */
  function GetDeviceErrorCount(m: Manager, device: nat): U32
    requires Valid(m)
  {
    if device >= DEVICE_TYPE_MAX then 0 else m.devices[device].errorCount
  }

  /** `StateManagerSetDeviceState`: an unknown device or state code latches
      PARAM. Setting the current state again changes nothing, calls nobody
      and saves nothing. A real change stores the state, and entering ERROR
      also increments the 32-bit error count and stamps the current tick;
      then every registered callback of that device is called once in
      order, and the state is saved. The result is 0 even when the save
      fails. The third component lists the callback calls made. */
  function SetDeviceState(m: Manager, device: nat, state: nat, now: U32, saveOk: bool)
    : (r: (Manager, seq<Callback>, int))
    requires Valid(m)
    ensures Valid(r.0)
    ensures device >= DEVICE_TYPE_MAX || state >= DEVICE_STATE_MAX ==>
              r == (m.(error := ParamError), [], -1)
    ensures device < DEVICE_TYPE_MAX && state < DEVICE_STATE_MAX ==>
              r.2 == 0 && OnlyDeviceChanged(m, r.0, device)
    ensures device < DEVICE_TYPE_MAX && state == m.devices[device].state ==> r == (m, [], 0)
    ensures device < DEVICE_TYPE_MAX && state < DEVICE_STATE_MAX && state != m.devices[device].state ==>
              && var before, after := m.devices[device], r.0.devices[device];
              && after.state == state
              && r.1 == before.callbacks
              && after.callbacks == before.callbacks
              && after.retryCount == before.retryCount
              && (state == DEVICE_STATE_ERROR ==>
                    after.errorCount == Inc32(before.errorCount) && after.lastErrorTime == now)
              && (state != DEVICE_STATE_ERROR ==>
                    after.errorCount == before.errorCount && after.lastErrorTime == before.lastErrorTime)
              && r.0.error == if saveOk then m.error else StorageError
  {
    if device >= DEVICE_TYPE_MAX || state >= DEVICE_STATE_MAX then (m.(error := ParamError), [], -1)
    else
      var d := m.devices[device];
      if d.state == state then (m, [], 0)
      else
        var d' := if state == DEVICE_STATE_ERROR
                  then d.(state := state, errorCount := Inc32(d.errorCount), lastErrorTime := now)
                  else d.(state := state);
        var m' := m.(devices := m.devices[device := d']);
        (Save(m', saveOk).0, Notify(d'.callbacks), 0)
  }

  /** After a successful change the getters report the new state. */
  lemma SetThenGet(m: Manager, device: nat, state: nat, now: U32, saveOk: bool)
    requires Valid(m) && device < DEVICE_TYPE_MAX && state < DEVICE_STATE_MAX
    ensures GetDeviceState(SetDeviceState(m, device, state, now, saveOk).0, device) == state
    ensures IsDeviceOnline(SetDeviceState(m, device, state, now, saveOk).0, device)
            <==> state == DEVICE_STATE_ONLINE
  {
  }

  /** Each real entry into ERROR is counted exactly once: leaving and
      re-entering ERROR adds two, re-asserting ERROR adds nothing. */
  lemma ErrorEntriesCounted(m: Manager, device: nat, t1: U32, t2: U32, t3: U32)
    requires Valid(m) && device < DEVICE_TYPE_MAX
    requires m.devices[device].state == DEVICE_STATE_ONLINE
    requires m.devices[device].errorCount < 10
    ensures var m1 := SetDeviceState(m, device, DEVICE_STATE_ERROR, t1, true).0;
            var m2 := SetDeviceState(m1, device, DEVICE_STATE_ERROR, t2, true).0;
            var m3 := SetDeviceState(m2, device, DEVICE_STATE_OFFLINE, t2, true).0;
            var m4 := SetDeviceState(m3, device, DEVICE_STATE_ERROR, t3, true).0;
            && GetDeviceErrorCount(m2, device) == m.devices[device].errorCount + 1
            && m2.devices[device].lastErrorTime == t1
            && GetDeviceErrorCount(m4, device) == m.devices[device].errorCount + 2
            && m4.devices[device].lastErrorTime == t3
  {
  }

  // -----------------------------------------------------------------------
  // Callback lists

  /** `StateManagerRegisterCallback`: an unknown device, a NULL function or
      a full list latches PARAM; otherwise append at the end. */
  function RegisterCallback(m: Manager, device: nat, cb: Callback): (r: (Manager, int))
    requires Valid(m)
    ensures Valid(r.0)
    ensures r.1 == 0 <==> device < DEVICE_TYPE_MAX && cb.fn != 0
                          && |m.devices[device].callbacks| < MAX_CALLBACKS
    ensures r.1 != 0 ==> r == (m.(error := ParamError), -1)
    ensures r.1 == 0 ==>
              && OnlyDeviceChanged(m, r.0, device) && r.0.error == m.error
              && r.0.devices[device] == m.devices[device].(callbacks := m.devices[device].callbacks + [cb])
  {
    if device >= DEVICE_TYPE_MAX || cb.fn == 0 then (m.(error := ParamError), -1)
    else
      var d := m.devices[device];
      if |d.callbacks| >= MAX_CALLBACKS then (m.(error := ParamError), -1)
      else (m.(devices := m.devices[device := d.(callbacks := d.callbacks + [cb])]), 0)
  }

  /** Position of the first entry whose function is `fn`, the search of
      `StateManagerUnregisterCallback`. */
  function FirstMatch(cbs: seq<Callback>, fn: nat): (k: Option<nat>)
    ensures k.None? <==> forall i :: 0 <= i < |cbs| ==> cbs[i].fn != fn
    ensures k.Some? ==> k.value < |cbs| && cbs[k.value].fn == fn
                        && forall i :: 0 <= i < k.value ==> cbs[i].fn != fn
  {
    if cbs == [] then None
    else if cbs[0].fn == fn then Some(0)
    else
      match FirstMatch(cbs[1..], fn)
      case None => None
      case Some(k) => Some(k + 1)
  }

  /** The shift loop of `StateManagerUnregisterCallback`: move every entry
      after position `k` one place down and drop the last. */
  method ShiftOut(cbs: seq<Callback>, k: nat) returns (r: seq<Callback>)
    requires k < |cbs|
    ensures r == cbs[..k] + cbs[k + 1..]
  {
    var a := cbs;
    var j := k;
    while j < |cbs| - 1
      invariant k <= j <= |cbs| - 1
      invariant |a| == |cbs|
      invariant a[..k] == cbs[..k]
      invariant forall i :: k <= i < j ==> a[i] == cbs[i + 1]
      invariant a[j..] == cbs[j..]
    {
      a := a[j := a[j + 1]];
      j := j + 1;
    }
    r := a[..|cbs| - 1];
    assert r[..k] == cbs[..k];
    assert forall i :: k <= i < |r| ==> r[i] == cbs[i + 1];
  }

  /** `StateManagerUnregisterCallback`: an unknown device or a NULL
      function latches PARAM. A function not in the list gives -1 with
      everything unchanged (and no error code). Otherwise only its first
      entry is removed and the later entries keep their order. */
  method UnregisterCallback(m: Manager, device: nat, fn: nat) returns (r: Manager, ret: int)
    requires Valid(m)
    ensures Valid(r)
    ensures device >= DEVICE_TYPE_MAX || fn == 0 ==> r == m.(error := ParamError) && ret == -1
    ensures device < DEVICE_TYPE_MAX && fn != 0 ==>
              && (ret == 0 <==> exists i :: 0 <= i < |m.devices[device].callbacks|
                                           && m.devices[device].callbacks[i].fn == fn)
              && (ret != 0 ==> r == m && ret == -1)
              && (ret == 0 ==> OnlyDeviceChanged(m, r, device) && r.error == m.error
                               && Removed(m.devices[device].callbacks, r.devices[device].callbacks, fn)
                               && r.devices[device] == m.devices[device].(callbacks := r.devices[device].callbacks))
  {
    if device >= DEVICE_TYPE_MAX || fn == 0 {
      return m.(error := ParamError), -1;
    }
    var d := m.devices[device];
    match FirstMatch(d.callbacks, fn)
    case None =>
      return m, -1;
    case Some(k) =>
      var cbs := ShiftOut(d.callbacks, k);
      r := m.(devices := m.devices[device := d.(callbacks := cbs)]);
      ret := 0;
  }

  /** `after` is `before` with its first `fn` entry taken out, the others
      in their original order. */
  predicate Removed(before: seq<Callback>, after: seq<Callback>, fn: nat) {
    exists k :: 0 <= k < |before| && before[k].fn == fn
                && (forall i :: 0 <= i < k ==> before[i].fn != fn)
                && after == before[..k] + before[k + 1..]
  }

  /** Registering a function that is not yet in the list and then
      unregistering it gives the list back. */
  lemma RegisterThenUnregister(cbs: seq<Callback>, cb: Callback, after: seq<Callback>)
    requires forall i :: 0 <= i < |cbs| ==> cbs[i].fn != cb.fn
    requires Removed(cbs + [cb], after, cb.fn)
    ensures after == cbs
  {
    var k :| 0 <= k < |cbs + [cb]| && (cbs + [cb])[k].fn == cb.fn
             && (forall i :: 0 <= i < k ==> (cbs + [cb])[i].fn != cb.fn)
             && after == (cbs + [cb])[..k] + (cbs + [cb])[k + 1..];
    assert k == |cbs|;
    assert (cbs + [cb])[..k] == cbs;
  }

  // -----------------------------------------------------------------------
  // Diagnosis and recovery

  /** `StateManagerDiagnoseDevice`: dispatch on the device to the one
      collaborator call that exercises it; an unknown device latches PARAM. */
  function Diagnose(m: Manager, device: nat, p: Probes): (r: (Manager, int))
    ensures device >= DEVICE_TYPE_MAX ==> r == (m.(error := ParamError), -1)
    ensures device < DEVICE_TYPE_MAX ==> r.0 == m
    ensures r.1 == 0 <==> || (device == DEVICE_TYPE_DHT11 && p.dht11Read)
                          || (device == DEVICE_TYPE_MQ2 && p.mq2Read)
                          || (device == DEVICE_TYPE_BH1750 && p.bh1750Read)
                          || (device == DEVICE_TYPE_LED && p.ledOff)
                          || (device == DEVICE_TYPE_BUZZER && p.buzzerMute)
  {
    if device >= DEVICE_TYPE_MAX then (m.(error := ParamError), -1)
    else
      var ok := if device == DEVICE_TYPE_DHT11 then p.dht11Read
                else if device == DEVICE_TYPE_MQ2 then p.mq2Read
                else if device == DEVICE_TYPE_BH1750 then p.bh1750Read
                else if device == DEVICE_TYPE_LED then p.ledOff
                else p.buzzerMute;
      (m, if ok then 0 else -1)
  }

  /** A device the recovery pass looks at: in ERROR with retries left. */
  predicate Eligible(d: DeviceStatus, maxRetry: U32) {
    d.state == DEVICE_STATE_ERROR && d.retryCount < maxRetry
  }

  predicate ProbeOk(p: Probes, device: nat) {
    Diagnose(Manager(0, 0, [], NoError, Config(false, 0, 0), false), device, p).1 == 0
  }

  /** The callbacks the recovery pass calls for devices `from` to 4, in
      device order: those of each eligible device whose probe succeeds. */
  function RecoveredCalls(m: Manager, p: Probes, from: nat): seq<Callback>
    requires Valid(m) && from <= DEVICE_TYPE_MAX
    decreases DEVICE_TYPE_MAX - from
  {
    if from == DEVICE_TYPE_MAX then []
    else
      var d := m.devices[from];
      (if Eligible(d, m.config.maxRetryCount) && ProbeOk(p, from) then Notify(d.callbacks) else [])
      + RecoveredCalls(m, p, from + 1)
  }

  /** What one recovery pass does to one device: an eligible device whose
      probe succeeds becomes ONLINE with both counters zeroed; an eligible
      device whose probe fails gains one retry; any other device is kept. */
  function RecoverDevice(d: DeviceStatus, maxRetry: U32, probeOk: bool): DeviceStatus {
    if !Eligible(d, maxRetry) then d
    else if probeOk then d.(state := DEVICE_STATE_ONLINE, errorCount := 0, retryCount := 0)
    else d.(retryCount := d.retryCount + 1)
  }

  /** `RecoveryTimerCallback` from device `from` on. For each eligible
      device: a successful probe makes it ONLINE with both counters zeroed
      and calls its callbacks (nothing is saved); a failed probe adds one
      retry. Every other device is untouched. */
  function RecoverFrom(m: Manager, p: Probes, from: nat): (r: (Manager, seq<Callback>))
    requires Valid(m) && from <= DEVICE_TYPE_MAX
    ensures Valid(r.0) && r.0 == m.(devices := r.0.devices)
    ensures forall k :: 0 <= k < DEVICE_TYPE_MAX ==>
              r.0.devices[k] == if k < from then m.devices[k]
                                else RecoverDevice(m.devices[k], m.config.maxRetryCount, ProbeOk(p, k))
    ensures r.1 == RecoveredCalls(m, p, from)
    decreases DEVICE_TYPE_MAX - from
  {
    if from == DEVICE_TYPE_MAX then (m, [])
    else
      var d := m.devices[from];
      var ok := Eligible(d, m.config.maxRetryCount) && ProbeOk(p, from);
      var m' := m.(devices := m.devices[from := RecoverDevice(d, m.config.maxRetryCount, ProbeOk(p, from))]);
      RecoveredCallsFrame(m, m', p, from + 1);
      var rest := RecoverFrom(m', p, from + 1);
      (rest.0, (if ok then Notify(d.callbacks) else []) + rest.1)
  }

  /** The calls for devices `from` on depend only on those devices. */
  lemma {:induction false} RecoveredCallsFrame(m: Manager, m': Manager, p: Probes, from: nat)
    requires Valid(m) && Valid(m') && from <= DEVICE_TYPE_MAX
    requires m'.config == m.config
    requires forall k :: from <= k < DEVICE_TYPE_MAX ==> m'.devices[k] == m.devices[k]
    ensures RecoveredCalls(m', p, from) == RecoveredCalls(m, p, from)
    decreases DEVICE_TYPE_MAX - from
  {
    if from < DEVICE_TYPE_MAX {
      RecoveredCallsFrame(m, m', p, from + 1);
    }
  }

  /** One period of the recovery timer: the pass over all five devices. */
  function RecoveryTick(m: Manager, p: Probes): (r: (Manager, seq<Callback>))
    requires Valid(m)
    ensures Valid(r.0)
  {
    RecoverFrom(m, p, 0)
  }

  /** Successive periods of the recovery timer, one probe outcome each. */
  function RecoveryTicks(m: Manager, ps: seq<Probes>): (r: Manager)
    requires Valid(m)
    ensures Valid(r)
    decreases |ps|
  {
    if ps == [] then m else RecoveryTicks(RecoveryTick(m, ps[0]).0, ps[1..])
  }

  /** Retries stay within the configured bound across any run of recovery
      ticks. */
  lemma {:induction false} RetriesBounded(m: Manager, ps: seq<Probes>)
    requires Valid(m)
    requires forall k :: 0 <= k < DEVICE_TYPE_MAX ==> m.devices[k].retryCount <= m.config.maxRetryCount
    ensures RecoveryTicks(m, ps).config == m.config
    ensures forall k :: 0 <= k < DEVICE_TYPE_MAX ==>
              RecoveryTicks(m, ps).devices[k].retryCount <= m.config.maxRetryCount
    decreases |ps|
  {
    if ps != [] {
      TickKeepsRetriesBounded(m, ps[0]);
      RetriesBounded(RecoveryTick(m, ps[0]).0, ps[1..]);
    }
  }

  /** One tick keeps every retry count within the bound. */
  lemma TickKeepsRetriesBounded(m: Manager, p: Probes)
    requires Valid(m)
    requires forall k :: 0 <= k < DEVICE_TYPE_MAX ==> m.devices[k].retryCount <= m.config.maxRetryCount
    ensures RecoveryTick(m, p).0.config == m.config
    ensures forall k :: 0 <= k < DEVICE_TYPE_MAX ==>
              RecoveryTick(m, p).0.devices[k].retryCount <= m.config.maxRetryCount
  {
  }

  /** A device whose retries are used up is never probed again: whatever
      the probes answer, every later tick leaves it exactly as it is. */
  lemma {:induction false} ExhaustedDeviceUntouched(m: Manager, ps: seq<Probes>, device: nat)
    requires Valid(m) && device < DEVICE_TYPE_MAX
    requires m.devices[device].retryCount >= m.config.maxRetryCount
    ensures RecoveryTicks(m, ps).devices[device] == m.devices[device]
    decreases |ps|
  {
    if ps != [] {
      var m1 := RecoveryTick(m, ps[0]).0;
      assert m1.devices[device] == m.devices[device];
      ExhaustedDeviceUntouched(m1, ps[1..], device);
    }
  }

  /** `StateManagerResetDeviceErrorCount`: zero both counters of a known
      device, leaving its state alone; an unknown device latches PARAM. */
  function ResetDeviceErrorCount(m: Manager, device: nat): (r: (Manager, int))
    requires Valid(m)
    ensures Valid(r.0)
    ensures device >= DEVICE_TYPE_MAX ==> r == (m.(error := ParamError), -1)
    ensures device < DEVICE_TYPE_MAX ==>
              && r.1 == 0 && OnlyDeviceChanged(m, r.0, device) && r.0.error == m.error
              && GetDeviceErrorCount(r.0, device) == 0
              && r.0.devices[device].retryCount == 0
              && GetDeviceState(r.0, device) == GetDeviceState(m, device)
              && r.0.devices[device].callbacks == m.devices[device].callbacks
  {
    if device >= DEVICE_TYPE_MAX then (m.(error := ParamError), -1)
    else
      var d := m.devices[device];
      (m.(devices := m.devices[device := d.(errorCount := 0, retryCount := 0)]), 0)
  }

  /** Resetting the counters of an exhausted device in ERROR makes the next
      tick probe it again (when any retry is configured). */
  lemma ResetMakesEligible(m: Manager, device: nat, p: Probes)
    requires Valid(m) && device < DEVICE_TYPE_MAX && m.config.maxRetryCount > 0
    requires m.devices[device].state == DEVICE_STATE_ERROR
    ensures var m' := ResetDeviceErrorCount(m, device).0;
            var after := RecoveryTick(m', p).0.devices[device];
            if ProbeOk(p, device) then after.state == DEVICE_STATE_ONLINE
            else after.retryCount == 1
  {
  }

  /** A device in ERROR at retry 2 of 3 whose probe fails reaches 3; the
      next tick, even with a working probe, leaves it in ERROR. */
  lemma RetryExhaustionExample(m: Manager, fail: Probes, ok: Probes)
    requires Valid(m) && m.config.maxRetryCount == 3
    requires m.devices[DEVICE_TYPE_MQ2].state == DEVICE_STATE_ERROR
    requires m.devices[DEVICE_TYPE_MQ2].retryCount == 2
    requires !fail.mq2Read && ok.mq2Read
    ensures var m1 := RecoveryTick(m, fail).0;
            var m2 := RecoveryTick(m1, ok).0;
            && m1.devices[DEVICE_TYPE_MQ2].retryCount == 3
            && m2.devices[DEVICE_TYPE_MQ2].state == DEVICE_STATE_ERROR
            && m2.devices[DEVICE_TYPE_MQ2].retryCount == 3
  {
  }
}
