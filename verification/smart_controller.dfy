/** The smart controller: a fixed table of control rules filled first-free,
    threshold rules with hysteresis, daily timing windows, linkage rules,
    and a ring of executed actions. The relay, buzzer and LED calls and the
    kernel tick are explicit inputs. */
module SmartController {
  import opened Common
  import Ring
  import DataCollector

  datatype ControllerState = Idle | Running | Error
  datatype ControllerError = NoError | InitError | ParamError | RuleError | DeviceError

  const RULE_TYPE_THRESHOLD: nat := 0
  const RULE_TYPE_TIMING: nat := 1
  const RULE_TYPE_LINKAGE: nat := 2

  /** Seconds in a day: the timing window wraps at midnight of the tick clock. */
  const DAY_SECONDS: nat := 86400

  /** The rule's payload; its constructor is the rule type. */
  datatype RuleConfig =
    | Threshold(threshold: real, hysteresis: real, upperBound: bool)
    | Timing(startTime: U32, endTime: U32, interval: U32)
    | Linkage(triggerDevice: nat, targetDevice: nat, action: nat)

  function TypeCode(cfg: RuleConfig): nat {
    match cfg
    case Threshold(_, _, _) => RULE_TYPE_THRESHOLD
    case Timing(_, _, _) => RULE_TYPE_TIMING
    case Linkage(_, _, _) => RULE_TYPE_LINKAGE
  }

  datatype ControlRule = ControlRule(enabled: bool, deviceId: nat, config: RuleConfig)

  datatype RuleEntry = RuleEntry(rule: ControlRule, used: bool)

  datatype HistoryEntry = HistoryEntry(timestamp: U32, deviceId: nat, action: nat, result: nat)

  datatype ControllerConfig = ControllerConfig(maxRules: U32, historySize: U32)

  /** The module's globals. `rules` is None while the table is not
      allocated; a history of capacity 0 stands for a NULL buffer. */
  datatype Controller = Controller(
    state: ControllerState,
    error: ControllerError,
    config: ControllerConfig,
    rules: Option<seq<RuleEntry>>,
    history: Ring.Ring<HistoryEntry>)

  predicate Valid(c: Controller) {
    && (c.rules.Some? ==> |c.rules.value| == c.config.maxRules)
    && Ring.Valid(c.history)
    && (c.history.Capacity() == 0 || c.history.Capacity() == c.config.historySize)
  }

  const ZeroEntry: HistoryEntry := HistoryEntry(0, 0, 0, 0)

  /** The globals before any initialisation. */
  function Boot(): (c: Controller)
    ensures Valid(c)
  {
    Controller(Idle, NoError, ControllerConfig(0, 0), None, Ring.Empty(0, ZeroEntry))
  }

  // -----------------------------------------------------------------------
  // Lifecycle

  /** `ControllerInit` as written: the history buffer is reallocated but
      the write index and count of the previous buffer are kept, and with
      `history_size == 0` the previous buffer itself is kept. */
  function InitAsWritten(c: Controller, config: Option<ControllerConfig>,
                         rulesAllocOk: bool, historyAllocOk: bool): (r: (Controller, int))
    ensures r.1 == 0 ==> r.0.history.index == c.history.index && r.0.history.count == c.history.count
  {
    if config.None? || config.value.maxRules == 0 then (c.(state := Error, error := ParamError), -1)
    else if !rulesAllocOk then (c.(rules := None, state := Error, error := InitError), -1)
    else if config.value.historySize > 0 && !historyAllocOk then
      (c.(rules := None, history := Ring.Ring([], c.history.index, c.history.count),
          state := Error, error := InitError), -1)
    else
      var items := if config.value.historySize > 0
                   then seq(config.value.historySize, _ => ZeroEntry) else c.history.items;
      (Controller(Running, NoError, config.value,
                  Some(seq(config.value.maxRules, _ => FreeEntry)),
                  Ring.Ring(items, c.history.index, c.history.count)), 0)
  }

  /** Re-initialising with a smaller history after three recorded actions
      leaves the write index past the end of the new buffer: the next
      `RecordHistory` would write outside it. */
  lemma InitStaleIndex()
    ensures var c := Controller(Running, NoError, ControllerConfig(1, 4), Some([FreeEntry]),
                                Ring.Ring(seq(4, _ => ZeroEntry), 3, 3));
            && Valid(c)
            && var r := InitAsWritten(c, Some(ControllerConfig(1, 2)), true, true);
            && r.1 == 0
            && r.0.history.index >= r.0.history.Capacity()
            && !Valid(r.0)
  {
    var c := Controller(Running, NoError, ControllerConfig(1, 4), Some([FreeEntry]),
                        Ring.Ring(seq(4, _ => ZeroEntry), 3, 3));
    var r := InitAsWritten(c, Some(ControllerConfig(1, 2)), true, true);
    assert r.0.history.Capacity() == 2;
  }

  const FreeEntry: RuleEntry := RuleEntry(ControlRule(false, 0, Threshold(0.0, 0.0, false)), false)

  /** `ControllerInit`, with the history index and count reset along with
      the buffer. A missing configuration or `max_rules == 0` latches
      ERROR/PARAM; a failed allocation latches ERROR/INIT and leaves no
      table (the history buffer, when it was the one to fail, is NULL).
      Success stores the configuration, empties every rule slot and the
      history, and moves to RUNNING/NONE. */
  function Init(c: Controller, config: Option<ControllerConfig>,
                rulesAllocOk: bool, historyAllocOk: bool): (r: (Controller, int))
    requires Valid(c)
    ensures Valid(r.0)
    ensures config.None? || config.value.maxRules == 0 ==>
              r == (c.(state := Error, error := ParamError), -1)
    ensures config.Some? && config.value.maxRules > 0 && !rulesAllocOk ==>
              r.1 == -1 && r.0.state == Error && r.0.error == InitError && r.0.rules.None?
    ensures config.Some? && config.value.maxRules > 0 && rulesAllocOk
            && config.value.historySize > 0 && !historyAllocOk ==>
              r.1 == -1 && r.0.state == Error && r.0.error == InitError && r.0.rules.None?
              && r.0.history.Capacity() == 0
    ensures r.1 == 0 <==> config.Some? && config.value.maxRules > 0 && rulesAllocOk
                          && (config.value.historySize == 0 || historyAllocOk)
    ensures r.1 == 0 ==>
              && r.0.state == Running && r.0.error == NoError && r.0.config == config.value
              && r.0.rules.Some?
              && (forall i :: 0 <= i < config.value.maxRules ==> !r.0.rules.value[i].used)
              && r.0.history.Capacity() == config.value.historySize
              && Ring.Content(r.0.history) == []
  {
    if config.None? || config.value.maxRules == 0 then (c.(state := Error, error := ParamError), -1)
    else if !rulesAllocOk then (c.(rules := None, state := Error, error := InitError), -1)
    else if config.value.historySize > 0 && !historyAllocOk then
      (c.(rules := None, history := Ring.Empty(0, ZeroEntry), state := Error, error := InitError), -1)
    else
      (Controller(Running, NoError, config.value,
                  Some(seq(config.value.maxRules, _ => FreeEntry)),
                  Ring.Empty(config.value.historySize, ZeroEntry)), 0)
  }

  /** `ControllerDeinit`: free both buffers, reset the history position and
      return to IDLE/NONE; the configuration is kept. */
  function Deinit(c: Controller): (r: Controller)
    requires Valid(c)
    ensures Valid(r) && r.state == Idle && r.error == NoError && r.config == c.config
    ensures r.rules.None? && r.history.Capacity() == 0 && Ring.Content(r.history) == []
  {
    Controller(Idle, NoError, c.config, None, Ring.Empty(0, ZeroEntry))
  }

  // -----------------------------------------------------------------------
  // Rule table

  /** The lowest-index unused slot, the search of `ControllerAddRule`. */
  function FirstFree(entries: seq<RuleEntry>): (k: Option<nat>)
    ensures k.None? <==> forall i :: 0 <= i < |entries| ==> entries[i].used
    ensures k.Some? ==> k.value < |entries| && !entries[k.value].used
                        && forall i :: 0 <= i < k.value ==> entries[i].used
  {
    if entries == [] then None
    else if !entries[0].used then Some(0)
    else
      match FirstFree(entries[1..])
      case None => None
      case Some(k) => Some(k + 1)
  }

  /** The first used slot for `deviceId` whose rule has type `typeCode`,
      the search of `ControllerRemoveRule` and `ControllerEnableRule`. */
  function FirstRule(entries: seq<RuleEntry>, deviceId: nat, typeCode: nat): (k: Option<nat>)
    ensures k.None? <==> forall i :: 0 <= i < |entries| ==> !Matches(entries[i], deviceId, typeCode)
    ensures k.Some? ==> k.value < |entries| && Matches(entries[k.value], deviceId, typeCode)
                        && forall i :: 0 <= i < k.value ==> !Matches(entries[i], deviceId, typeCode)
  {
    if entries == [] then None
    else if Matches(entries[0], deviceId, typeCode) then Some(0)
    else
      match FirstRule(entries[1..], deviceId, typeCode)
      case None => None
      case Some(k) => Some(k + 1)
  }

  predicate Matches(e: RuleEntry, deviceId: nat, typeCode: nat) {
    e.used && e.rule.deviceId == deviceId && TypeCode(e.rule.config) == typeCode
  }

  /** `ControllerAddRule`: a missing rule or table latches ERROR/PARAM; a
      full table latches ERROR/RULE; otherwise the rule goes into the
      lowest-index free slot and nothing else changes. */
  function AddRule(c: Controller, rule: Option<ControlRule>): (r: (Controller, int))
    requires Valid(c)
    ensures Valid(r.0) && r.0.history == c.history && r.0.config == c.config
    ensures rule.None? || c.rules.None? ==> r == (c.(state := Error, error := ParamError), -1)
    ensures rule.Some? && c.rules.Some? ==>
              && (r.1 == 0 <==> exists i :: 0 <= i < |c.rules.value| && !c.rules.value[i].used)
              && (r.1 != 0 ==> r == (c.(state := Error, error := RuleError), -1))
              && (r.1 == 0 ==>
                    && r.0.state == c.state && r.0.error == c.error && r.0.rules.Some?
                    && exists k :: 0 <= k < |c.rules.value|
                         && !c.rules.value[k].used
                         && (forall i :: 0 <= i < k ==> c.rules.value[i].used)
                         && r.0.rules.value == c.rules.value[k := RuleEntry(rule.value, true)])
  {
    if rule.None? || c.rules.None? then (c.(state := Error, error := ParamError), -1)
    else
      match FirstFree(c.rules.value)
      case None => (c.(state := Error, error := RuleError), -1)
      case Some(k) => (c.(rules := Some(c.rules.value[k := RuleEntry(rule.value, true)])), 0)
  }

  /** `ControllerRemoveRule`: a missing table latches ERROR/PARAM; otherwise
      only the first used match is freed, and with no match the result is
      -1 with nothing changed. */
  function RemoveRule(c: Controller, deviceId: nat, typeCode: nat): (r: (Controller, int))
    requires Valid(c)
    ensures Valid(r.0)
    ensures c.rules.None? ==> r == (c.(state := Error, error := ParamError), -1)
    ensures c.rules.Some? ==>
              && (r.1 == 0 <==> exists i :: 0 <= i < |c.rules.value| && Matches(c.rules.value[i], deviceId, typeCode))
              && (r.1 != 0 ==> r == (c, -1))
              && (r.1 == 0 ==> exists k :: 0 <= k < |c.rules.value|
                                  && Matches(c.rules.value[k], deviceId, typeCode)
                                  && (forall i :: 0 <= i < k ==> !Matches(c.rules.value[i], deviceId, typeCode))
                                  && r.0 == c.(rules := Some(c.rules.value[k := c.rules.value[k].(used := false)])))
  {
    if c.rules.None? then (c.(state := Error, error := ParamError), -1)
    else
      match FirstRule(c.rules.value, deviceId, typeCode)
      case None => (c, -1)
      case Some(k) => (c.(rules := Some(c.rules.value[k := c.rules.value[k].(used := false)])), 0)
  }

  /** `ControllerEnableRule`: as `RemoveRule`, but the first match has its
      enabled flag set instead. */
  function EnableRule(c: Controller, deviceId: nat, typeCode: nat, enabled: bool): (r: (Controller, int))
    requires Valid(c)
    ensures Valid(r.0)
    ensures c.rules.None? ==> r == (c.(state := Error, error := ParamError), -1)
    ensures c.rules.Some? ==>
              && (r.1 == 0 <==> exists i :: 0 <= i < |c.rules.value| && Matches(c.rules.value[i], deviceId, typeCode))
              && (r.1 != 0 ==> r == (c, -1))
              && (r.1 == 0 ==> exists k :: 0 <= k < |c.rules.value|
                                  && Matches(c.rules.value[k], deviceId, typeCode)
                                  && (forall i :: 0 <= i < k ==> !Matches(c.rules.value[i], deviceId, typeCode))
                                  && r.0 == c.(rules := Some(c.rules.value[k := c.rules.value[k].(rule := c.rules.value[k].rule.(enabled := enabled))])))
  {
    if c.rules.None? then (c.(state := Error, error := ParamError), -1)
    else
      match FirstRule(c.rules.value, deviceId, typeCode)
      case None => (c, -1)
      case Some(k) =>
        var e := c.rules.value[k];
        (c.(rules := Some(c.rules.value[k := e.(rule := e.rule.(enabled := enabled))])), 0)
  }

  /** Adding a rule to a table with a free slot and removing it again by
      its device and type frees that same slot when no earlier slot
      matches. */
  lemma AddThenRemove(c: Controller, rule: ControlRule)
    requires Valid(c) && c.rules.Some?
    requires exists i :: 0 <= i < |c.rules.value| && !c.rules.value[i].used
    requires forall i :: 0 <= i < |c.rules.value| ==>
               !Matches(c.rules.value[i], rule.deviceId, TypeCode(rule.config))
    ensures var added := AddRule(c, Some(rule)).0;
            var removed := RemoveRule(added, rule.deviceId, TypeCode(rule.config));
            && removed.1 == 0
            && forall i :: 0 <= i < |c.rules.value| ==>
                 removed.0.rules.value[i].used == c.rules.value[i].used
  {
    var k := FirstFree(c.rules.value).value;
    var added := AddRule(c, Some(rule)).0;
    assert added.rules.value == c.rules.value[k := RuleEntry(rule, true)];
    assert FirstRule(added.rules.value, rule.deviceId, TypeCode(rule.config)) == Some(k) by {
      assert Matches(added.rules.value[k], rule.deviceId, TypeCode(rule.config));
      assert forall i :: 0 <= i < |added.rules.value| && i != k ==> added.rules.value[i] == c.rules.value[i];
    }
  }

  // -----------------------------------------------------------------------
  // History

  /** `RecordHistory`: append one entry; nothing when the buffer is NULL or
      its configured size is 0. */
  function RecordHistory(c: Controller, entry: HistoryEntry): (r: Controller)
    requires Valid(c)
    ensures Valid(r) && r.rules == c.rules && r.config == c.config
    ensures r.state == c.state && r.error == c.error
    ensures c.history.Capacity() == 0 ==> r == c
    ensures c.history.Capacity() > 0 ==>
              && r.history.Capacity() == c.history.Capacity()
              && Ring.Content(r.history) == Ring.Tail(Ring.Content(c.history) + [entry], c.history.Capacity())
  {
    if c.history.Capacity() == 0 || c.config.historySize == 0 then c
    else
      Ring.PushContent(c.history, entry);
      c.(history := Ring.Push(c.history, entry))
  }

  /** `ControllerGetHistory`: refuses missing outputs and a NULL buffer;
      otherwise the `min(n, count)` entries starting at the oldest retained
      one, oldest first. */
  function GetHistory(c: Controller, n: nat, outputs: bool): (r: Option<seq<HistoryEntry>>)
    requires Valid(c)
    ensures r.Some? <==> outputs && c.history.Capacity() > 0
    ensures r.Some? ==> r.value == Ring.Content(c.history)[..Min(n, c.history.count)]
  {
    if !outputs || c.history.Capacity() == 0 then None
    else
      Ring.OldestNIsPrefix(c.history, n);
      Some(Ring.OldestN(c.history, n))
  }

  /** `ControllerClearHistory`: forget every entry, keep the buffer. */
  function ClearHistory(c: Controller): (r: Controller)
    requires Valid(c)
    ensures Valid(r) && r.history.Capacity() == c.history.Capacity() && r.rules == c.rules
    ensures Ring.Content(r.history) == []
  {
    c.(history := Ring.Clear(c.history))
  }

  /** With five actions recorded into a three-entry history, asking for two
      entries returns the third and fourth actions, not the two latest. */
  lemma HistoryReturnsOldest(a: HistoryEntry, b: HistoryEntry, d: HistoryEntry, e: HistoryEntry, f: HistoryEntry)
    ensures var h := Ring.PushAll(Ring.Empty(3, ZeroEntry), [a, b, d, e, f]);
            var c := Controller(Running, NoError, ControllerConfig(1, 3), Some([FreeEntry]), h);
            Valid(c) && GetHistory(c, 2, true) == Some([d, e])
  {
    var xs := [a, b, d, e, f];
    var h0 := Ring.Empty(3, ZeroEntry);
    Ring.EmptyHolds(3, ZeroEntry);
    Ring.PushAllHolds(h0, [], xs);
    assert [] + xs == xs;
    var h := Ring.PushAll(h0, xs);
    Ring.HoldsCount(h, xs);
    assert Ring.Content(h) == [d, e, f];
    var c := Controller(Running, NoError, ControllerConfig(1, 3), Some([FreeEntry]), h);
    assert Valid(c);
    assert Ring.Content(h)[..Min(2, h.count)] == [d, e];
    assert GetHistory(c, 2, true) == Some([d, e]);
  }

  // -----------------------------------------------------------------------
  // Rule evaluation

  /** `CheckThresholdRule`'s decision: an upper-bound rule acts at or above
      `threshold + hysteresis`, a lower-bound rule at or below
      `threshold - hysteresis`; every other value gives action 0. */
  function ThresholdAction(threshold: real, hysteresis: real, upperBound: bool, value: real): (a: nat)
    ensures a == 0 || a == 1
  {
    if upperBound then
      if value >= threshold + hysteresis then 1
      else if value <= threshold - hysteresis then 0
      else 0
    else
      if value <= threshold - hysteresis then 1
      else if value >= threshold + hysteresis then 0
      else 0
  }

  /** Action 1 exactly past the outer edge of the band on the rule's side. */
  lemma ThresholdActionIff(threshold: real, hysteresis: real, upperBound: bool, value: real)
    ensures ThresholdAction(threshold, hysteresis, upperBound, value) == 1 <==>
              (upperBound && value >= threshold + hysteresis)
              || (!upperBound && value <= threshold - hysteresis)
  {
  }

  /** No state is latched: with a positive hysteresis, a value inside the
      band always gives action 0, whatever the rule acted on before, and
      an upper-bound rule that acts on a value acts on every larger one. */
  lemma ThresholdNoLatch(threshold: real, hysteresis: real, upperBound: bool, value: real, larger: real)
    requires hysteresis > 0.0
    ensures threshold - hysteresis < value < threshold + hysteresis ==>
              ThresholdAction(threshold, hysteresis, upperBound, value) == 0
    ensures upperBound && value <= larger && ThresholdAction(threshold, hysteresis, true, value) == 1 ==>
              ThresholdAction(threshold, hysteresis, true, larger) == 1
  {
  }

  /** Seconds since midnight of the tick clock, `(tick / 1000) % 86400`. */
  function DaySeconds(tick: U32): (ds: nat)
    ensures ds < DAY_SECONDS
  {
    (tick / 1000) % DAY_SECONDS
  }

  /** `CheckTimingRule`'s decision: inside `[start, end)` act with 1 when
      the interval is 0 or the offset from the start is a multiple of it,
      and do nothing otherwise; outside the window act with 0. */
  function TimingAction(startTime: U32, endTime: U32, interval: U32, tick: U32): (a: Option<nat>)
  {
    var ds := DaySeconds(tick);
    if startTime <= ds < endTime then
      if interval == 0 || (ds - startTime) % interval == 0 then Some(1) else None
    else Some(0)
  }

  /** Inside the window the rule fires exactly at `start + k * interval`. */
  lemma TimingFiresOnGrid(startTime: U32, endTime: U32, interval: U32, tick: U32)
    requires interval > 0
    requires startTime <= DaySeconds(tick) < endTime
    ensures TimingAction(startTime, endTime, interval, tick) == Some(1) <==>
              exists k: nat :: k <= DaySeconds(tick) && DaySeconds(tick) == startTime + k * interval
  {
    var ds := DaySeconds(tick);
    var q := (ds - startTime) / interval;
    DivMod(ds - startTime, interval);
    if (ds - startTime) % interval == 0 {
      MulGe(q, interval);
      assert ds == startTime + q * interval;
    } else {
      if exists k: nat :: k <= ds && ds == startTime + k * interval {
        var k: nat :| k <= ds && ds == startTime + k * interval;
        MulMod(k, interval);
        assert false;
      }
    }
  }

  lemma DivMod(x: nat, n: nat)
    requires n > 0
    ensures x == (x / n) * n + x % n
  {
  }

  /** `k * n` is at least `k` for a positive `n`. */
  lemma {:induction false} MulGe(k: nat, n: nat)
    requires n >= 1
    ensures k * n >= k
  {
    if k > 0 {
      MulGe(k - 1, n);
      assert k * n == (k - 1) * n + n;
    }
  }

  /** A multiple of `n` leaves no remainder. */
  lemma MulMod(k: nat, n: nat)
    requires n > 0
    ensures (k * n) % n == 0
  {
    var q := (k * n) / n;
    DivMod(k * n, n);
    if q < k {
      MulGe(n, k - q);
    } else if q > k {
      MulGe(n, q - k);
    }
  }

  /** Outside the window the rule always switches its device off. */
  lemma TimingOutsideWindowIsOff(startTime: U32, endTime: U32, interval: U32, tick: U32)
    requires DaySeconds(tick) < startTime || endTime <= DaySeconds(tick)
    ensures TimingAction(startTime, endTime, interval, tick) == Some(0)
  {
  }

  /** `CheckLinkageRule`'s decision for a change of `triggerDevice` to
      `triggerState`: the target gets the rule's action when the trigger is
      on and its logical negation when it is off; changes of other devices
      give nothing. */
  function LinkageAction(e: RuleEntry, triggerDevice: nat, triggerState: nat): (a: Option<(nat, nat)>)
    requires e.rule.config.Linkage?
    ensures a.Some? <==> e.used && e.rule.enabled && e.rule.config.triggerDevice == triggerDevice
  {
    if !e.used || !e.rule.enabled then None
    else if e.rule.config.triggerDevice != triggerDevice then None
    else Some((e.rule.config.targetDevice,
               if triggerState != 0 then e.rule.config.action
               else if e.rule.config.action == 0 then 1 else 0))
  }

  /** Switching the trigger off undoes what switching it on did, for an
      on/off action. */
  lemma LinkageOffInverts(e: RuleEntry, triggerDevice: nat)
    requires e.rule.config.Linkage? && e.rule.config.action <= 1
    requires e.used && e.rule.enabled && e.rule.config.triggerDevice == triggerDevice
    ensures LinkageAction(e, triggerDevice, 1).value.1 + LinkageAction(e, triggerDevice, 0).value.1 == 1
    ensures LinkageAction(e, triggerDevice, 1).value.0 == LinkageAction(e, triggerDevice, 0).value.0
  {
  }

  /** What one slot of `ControllerHandleData` executes: `(device, action)`,
      or nothing for a free slot, a disabled rule, a timing rule between
      grid points, and every linkage rule. */
  function Decide(e: RuleEntry, value: real, tick: U32): (d: Option<(nat, nat)>)
    ensures d.Some? ==> e.used && e.rule.enabled && !e.rule.config.Linkage? && d.value.0 == e.rule.deviceId
    ensures e.used && e.rule.enabled && e.rule.config.Threshold? ==> d.Some?
  {
    if !e.used then None
    else
      match e.rule.config
      case Threshold(t, h, upper) =>
        if !e.rule.enabled then None
        else Some((e.rule.deviceId, ThresholdAction(t, h, upper, value)))
      case Timing(s, en, iv) =>
        if !e.rule.enabled then None
        else
          var a := TimingAction(s, en, iv, tick);
          if a.None? then None else Some((e.rule.deviceId, a.value))
      case Linkage(_, _, _) => None
  }

  /** The executions of slots `0..n`, in slot order. */
  function Decisions(entries: seq<RuleEntry>, value: real, tick: U32, n: nat): seq<(nat, nat)>
    requires n <= |entries|
  {
    if n == 0 then []
    else
      var d := Decide(entries[n - 1], value, tick);
      Decisions(entries, value, tick, n - 1) + (if d.Some? then [d.value] else [])
  }

  /** The device call of `ExecuteControl`: relay (0), buzzer (1) and LED
      (2) answer through `answer`; any other device fails. */
  function DeviceCall(deviceId: nat, answer: bool): (ret: int)
    ensures ret == 0 <==> deviceId <= 2 && answer
  {
    if deviceId <= 2 then (if answer then 0 else -1) else -1
  }

  /** The history entries a run of executions records: the `k`-th
      execution's device call is answered by `answers(k)`. */
  function Executions(ds: seq<(nat, nat)>, tick: U32, answers: nat -> bool): (hs: seq<HistoryEntry>)
    ensures |hs| == |ds|
  {
    seq(|ds|, k requires 0 <= k < |ds| =>
          HistoryEntry(tick, ds[k].0, ds[k].1, if DeviceCall(ds[k].0, answers(k)) == 0 then 1 else 0))
  }

  /** `ExecuteControl`: make the device call and record its outcome
      (result 1 iff the call returned 0). */
  function ExecuteControl(c: Controller, deviceId: nat, action: nat, tick: U32, answer: bool)
    : (r: (Controller, int))
    requires Valid(c)
    ensures Valid(r.0) && r.0.rules == c.rules && r.0.config == c.config
    ensures r.0.state == c.state && r.0.error == c.error
    ensures r.1 == 0 <==> deviceId <= 2 && answer
    ensures c.history.Capacity() == 0 ==> r.0 == c
    ensures c.history.Capacity() > 0 ==>
              && r.0.history.Capacity() == c.history.Capacity()
              && Ring.Content(r.0.history)
                 == Ring.Tail(Ring.Content(c.history)
                              + [HistoryEntry(tick, deviceId, action, if r.1 == 0 then 1 else 0)],
                              c.history.Capacity())
  {
    var ret := DeviceCall(deviceId, answer);
    (RecordHistory(c, HistoryEntry(tick, deviceId, action, if ret == 0 then 1 else 0)), ret)
  }

  /** A sensor report as `ControllerHandleData` receives it: the type code
      and the payload. */
  datatype SensorData = SensorData(typeCode: nat, reading: DataCollector.Reading)

  /** The value a rule is evaluated against: temperature, smoke or light.
      The three payload views share their first field, so this is the
      payload's first field whichever valid code accompanies it. */
  function PrimaryValue(r: DataCollector.Reading): real {
    match r
    case Dht11Reading(t, _) => t
    case Mq2Reading(s) => s
    case Bh1750Reading(l) => l
  }

  /** `ControllerHandleData`: ignore a missing report, a missing table and
      unknown sensor types; otherwise evaluate every used slot in index
      order against the report's value and the current tick, executing
      each decision and recording it. The `k`-th execution's device call
      is answered by `answers(k)`. */
  method HandleData(c: Controller, data: Option<SensorData>, tick: U32, answers: nat -> bool)
    returns (c': Controller, executed: seq<HistoryEntry>)
    requires Valid(c)
    ensures Valid(c') && c'.rules == c.rules && c'.config == c.config
    ensures c'.state == c.state && c'.error == c.error
    ensures data.None? || c.rules.None? || data.value.typeCode >= DataCollector.SENSOR_TYPE_MAX ==>
              c' == c && executed == []
    ensures data.Some? && c.rules.Some? && data.value.typeCode < DataCollector.SENSOR_TYPE_MAX ==>
              executed == Executions(Decisions(c.rules.value, PrimaryValue(data.value.reading), tick,
                                               |c.rules.value|), tick, answers)
    ensures c.history.Capacity() == 0 ==> c'.history == c.history
    ensures c.history.Capacity() > 0 ==>
              && c'.history.Capacity() == c.history.Capacity()
              && Ring.Content(c'.history) == Ring.Tail(Ring.Content(c.history) + executed, c.history.Capacity())
  {
    c', executed := c, [];
    if data.None? || c.rules.None? || data.value.typeCode >= DataCollector.SENSOR_TYPE_MAX {
      return;
    }
    var entries := c.rules.value;
    var value := PrimaryValue(data.value.reading);
    var i := 0;
    while i < |entries|
      invariant 0 <= i <= |entries|
      invariant Valid(c') && c'.rules == c.rules && c'.config == c.config
      invariant c'.state == c.state && c'.error == c.error
      invariant executed == Executions(Decisions(entries, value, tick, i), tick, answers)
      invariant c.history.Capacity() == 0 ==> c'.history == c.history
      invariant c.history.Capacity() > 0 ==>
                  && c'.history.Capacity() == c.history.Capacity()
                  && Ring.Content(c'.history)
                     == Ring.Tail(Ring.Content(c.history) + executed, c.history.Capacity())
    {
      var step := HandleSlot(c', entries[i], value, tick, answers(|executed|));
      assert executed + step.1 == Executions(Decisions(entries, value, tick, i + 1), tick, answers) by {
        ExecutionsStep(entries, value, tick, i, answers);
      }
      if c.history.Capacity() > 0 {
        assert Ring.Content(step.0.history)
               == Ring.Tail(Ring.Content(c.history) + (executed + step.1), c.history.Capacity()) by {
          Ring.TailAppend(Ring.Content(c.history), executed, step.1, c.history.Capacity());
        }
      }
      c', executed := step.0, executed + step.1;
      i := i + 1;
    }
  }

  /** One slot of `ControllerHandleData`: execute its decision, if any. */
  function HandleSlot(c: Controller, e: RuleEntry, value: real, tick: U32, answer: bool)
    : (r: (Controller, seq<HistoryEntry>))
    requires Valid(c)
    ensures Valid(r.0) && r.0.rules == c.rules && r.0.config == c.config
    ensures r.0.state == c.state && r.0.error == c.error
    ensures r.1 == SlotExecution(Decide(e, value, tick), tick, answer)
    ensures c.history.Capacity() == 0 ==> r.0.history == c.history
    ensures c.history.Capacity() > 0 ==>
              && r.0.history.Capacity() == c.history.Capacity()
              && Ring.Content(r.0.history) == Ring.Tail(Ring.Content(c.history) + r.1, c.history.Capacity())
  {
    var d := Decide(e, value, tick);
    if d.None? then (c, [])
    else
      var step := ExecuteControl(c, d.value.0, d.value.1, tick, answer);
      (step.0, [HistoryEntry(tick, d.value.0, d.value.1, if step.1 == 0 then 1 else 0)])
  }

  /** The history entry a decision leaves, if it is executed. */
  function SlotExecution(d: Option<(nat, nat)>, tick: U32, answer: bool): seq<HistoryEntry> {
    if d.None? then []
    else [HistoryEntry(tick, d.value.0, d.value.1, if DeviceCall(d.value.0, answer) == 0 then 1 else 0)]
  }

  lemma ExecutionsStep(entries: seq<RuleEntry>, value: real, tick: U32, i: nat, answers: nat -> bool)
    requires i < |entries|
    ensures Executions(Decisions(entries, value, tick, i + 1), tick, answers)
            == Executions(Decisions(entries, value, tick, i), tick, answers)
               + SlotExecution(Decide(entries[i], value, tick), tick,
                               answers(|Decisions(entries, value, tick, i)|))
  {
    var d := Decide(entries[i], value, tick);
    if d.Some? {
      ExecutionsAppend(Decisions(entries, value, tick, i), d.value, tick, answers);
    }
  }

  lemma ExecutionsAppend(ds: seq<(nat, nat)>, d: (nat, nat), tick: U32, answers: nat -> bool)
    ensures Executions(ds + [d], tick, answers)
            == Executions(ds, tick, answers)
               + [HistoryEntry(tick, d.0, d.1, if DeviceCall(d.0, answers(|ds|)) == 0 then 1 else 0)]
  {
    var lhs := Executions(ds + [d], tick, answers);
    var rhs := Executions(ds, tick, answers)
               + [HistoryEntry(tick, d.0, d.1, if DeviceCall(d.0, answers(|ds|)) == 0 then 1 else 0)];
    assert forall k :: 0 <= k < |ds| ==> (ds + [d])[k] == ds[k];
    assert forall k :: 0 <= k < |lhs| ==> lhs[k] == rhs[k];
  }

  /** Linkage rules, free slots and disabled rules are never executed by
      `ControllerHandleData`: every decision comes from a used, enabled
      threshold or timing rule for that decision's device. */
  lemma {:induction false} DecisionsFromActiveRules(entries: seq<RuleEntry>, value: real, tick: U32, n: nat)
    requires n <= |entries|
    ensures forall j :: 0 <= j < |Decisions(entries, value, tick, n)| ==>
              ActiveRuleFor(entries, n, Decisions(entries, value, tick, n)[j].0)
    decreases n
  {
    if n > 0 {
      DecisionsFromActiveRules(entries, value, tick, n - 1);
      var prev := Decisions(entries, value, tick, n - 1);
      var all := Decisions(entries, value, tick, n);
      forall j | 0 <= j < |all|
        ensures ActiveRuleFor(entries, n, all[j].0)
      {
        if j < |prev| {
          assert all[j] == prev[j];
          assert ActiveRuleFor(entries, n - 1, prev[j].0);
          var k :| 0 <= k < n - 1 && entries[k].used && entries[k].rule.enabled
                   && !entries[k].rule.config.Linkage? && entries[k].rule.deviceId == prev[j].0;
          assert 0 <= k < n;
        } else {
          assert all[j] == Decide(entries[n - 1], value, tick).value;
        }
      }
    }
  }

  /** Some used, enabled, non-linkage slot among the first `n` drives `deviceId`. */
  ghost predicate ActiveRuleFor(entries: seq<RuleEntry>, n: nat, deviceId: nat)
    requires n <= |entries|
  {
    exists k :: 0 <= k < n && entries[k].used && entries[k].rule.enabled
                && !entries[k].rule.config.Linkage? && entries[k].rule.deviceId == deviceId
  }

  /** Every enabled threshold rule in use produces exactly one execution
      per report: a table holding `m` of them and nothing else used
      executes `m` times. */
  lemma {:induction false} ThresholdRulesAlwaysAct(entries: seq<RuleEntry>, value: real, tick: U32, n: nat)
    requires n <= |entries|
    requires forall i :: 0 <= i < |entries| && entries[i].used ==>
               entries[i].rule.enabled && entries[i].rule.config.Threshold?
    ensures |Decisions(entries, value, tick, n)| == UsedCount(entries, n)
    decreases n
  {
    if n > 0 {
      ThresholdRulesAlwaysAct(entries, value, tick, n - 1);
    }
  }

  function UsedCount(entries: seq<RuleEntry>, n: nat): nat
    requires n <= |entries|
  {
    if n == 0 then 0 else UsedCount(entries, n - 1) + (if entries[n - 1].used then 1 else 0)
  }
}
