/** The alarm evaluation engine: an 8-slot rule table indexed by alarm
    type, the threshold breach predicate, a 100-record history ring, the
    level-to-actuator decisions and a single observer slot. Sensor values
    come from the data collector's latest slots; the wall clock is a
    parameter; LED and buzzer calls are recorded as effects (the engine
    ignores their return values). */
module Alarm {
  import opened Common
  import Ring
  import DataCollector

  // -----------------------------------------------------------------------
  // Alarm types, levels and rules

  /** `ALARM_TYPE_COUNT`: the size of the rule table. */
  const ALARM_TYPE_COUNT: nat := 8

  const TEMPERATURE_HIGH: nat := 0
  const TEMPERATURE_LOW: nat := 1
  const HUMIDITY_HIGH: nat := 2
  const HUMIDITY_LOW: nat := 3
  const SMOKE: nat := 4
  const LIGHT_HIGH: nat := 5
  const LIGHT_LOW: nat := 6
  const SYSTEM_ERROR: nat := 7

  const INFO: nat := 0
  const WARNING: nat := 1
  const CRITICAL: nat := 2

  /** Capacity `AlarmInit` allocates for the record history. */
  const DEFAULT_RECORD_CAPACITY: nat := 100
  /** Blink half-period requested for Warning and above. */
  const BLINK_INTERVAL_MS: nat := 500

  /** Alarm type and level are kept as the raw enum values the caller
      supplies: the table only guards the type, never the level. */
  datatype AlarmRule = AlarmRule(alarmType: nat, level: nat, thresholdHigh: real,
                                 thresholdLow: real, enabled: bool, delaySeconds: nat)

  /** A zero-initialised table slot. */
  const ZeroRule := AlarmRule(TEMPERATURE_HIGH, INFO, 0.0, 0.0, false, 0)

  datatype AlarmRecord = AlarmRecord(alarmType: nat, level: nat, timestamp: nat, value: real)

  const ZeroRecord := AlarmRecord(0, 0, 0, 0.0)

  datatype LedColor = Off | Red | Green | Blue

  /** The engine's globals. A record ring of capacity 0 is unallocated. */
  datatype Engine = Engine(rules: seq<AlarmRule>, records: Ring.Ring<AlarmRecord>,
                           callback: Option<nat>)

  predicate Valid(a: Engine) {
    && |a.rules| == ALARM_TYPE_COUNT
    && (forall i :: 0 <= i < ALARM_TYPE_COUNT ==> a.rules[i].alarmType < ALARM_TYPE_COUNT)
    && Ring.Valid(a.records)
  }

  /** Power-on globals: zeroed rules, no record buffer, no observer. */
  function Boot(): (a: Engine)
    ensures Valid(a) && a.records.Capacity() == 0 && Ring.Content(a.records) == []
    ensures forall i :: 0 <= i < ALARM_TYPE_COUNT ==> a.rules[i] == ZeroRule
    ensures a.callback.None?
  {
    Engine(seq(ALARM_TYPE_COUNT, _ => ZeroRule), Ring.Empty(0, ZeroRecord), None)
  }

  // -----------------------------------------------------------------------
  // Classification

  /** The "fires when at or above `thresholdHigh`" types. */
  const HighTypes: set<nat> := {TEMPERATURE_HIGH, HUMIDITY_HIGH, SMOKE, LIGHT_HIGH}
  /** The "fires when at or below `thresholdLow`" types. */
  const LowTypes: set<nat> := {TEMPERATURE_LOW, HUMIDITY_LOW, LIGHT_LOW}

  /** `GetAlarmLevelColor`. */
  function LevelColor(level: nat): LedColor {
    if level == INFO then Green
    else if level == WARNING then Blue
    else if level == CRITICAL then Red
    else Off
  }

  /** `GetSensorType`: the sensor backing an alarm type; none for the
      system-error type and for unknown values. */
  function SensorFor(alarmType: nat): (s: Option<DataCollector.SensorType>)
    ensures s.None? <==> alarmType !in HighTypes + LowTypes
  {
    if alarmType == TEMPERATURE_HIGH || alarmType == TEMPERATURE_LOW
       || alarmType == HUMIDITY_HIGH || alarmType == HUMIDITY_LOW then Some(DataCollector.Dht11)
    else if alarmType == SMOKE then Some(DataCollector.Mq2)
    else if alarmType == LIGHT_HIGH || alarmType == LIGHT_LOW then Some(DataCollector.Bh1750)
    else None
  }

  /** `GetSensorValue`: the scalar an alarm type watches. */
  function ValueOf(alarmType: nat, r: DataCollector.Reading): real {
    if alarmType == TEMPERATURE_HIGH || alarmType == TEMPERATURE_LOW then
      (if r.Dht11Reading? then r.temperature else 0.0)
    else if alarmType == HUMIDITY_HIGH || alarmType == HUMIDITY_LOW then
      (if r.Dht11Reading? then r.humidity else 0.0)
    else if alarmType == SMOKE then
      (if r.Mq2Reading? then r.smoke else 0.0)
    else if alarmType == LIGHT_HIGH || alarmType == LIGHT_LOW then
      (if r.Bh1750Reading? then r.light else 0.0)
    else 0.0
  }

  /** `CheckThreshold`, written as the source's switch over the type. */
  function CheckThreshold(alarmType: nat, value: real, rule: AlarmRule): bool {
    if alarmType == TEMPERATURE_HIGH || alarmType == HUMIDITY_HIGH || alarmType == LIGHT_HIGH then
      value >= rule.thresholdHigh
    else if alarmType == TEMPERATURE_LOW || alarmType == HUMIDITY_LOW || alarmType == LIGHT_LOW then
      value <= rule.thresholdLow
    else if alarmType == SMOKE then
      value >= rule.thresholdHigh
    else false
  }

  /** The breach predicate: high types fire iff the value reaches
      `thresholdHigh`, low types iff it falls to `thresholdLow`, nothing
      else ever fires. */
  lemma BreachIff(alarmType: nat, value: real, rule: AlarmRule)
    ensures CheckThreshold(alarmType, value, rule) <==>
              (alarmType in HighTypes && value >= rule.thresholdHigh)
              || (alarmType in LowTypes && value <= rule.thresholdLow)
  {
  }

  /** A breach persists as the value moves further past the threshold. */
  lemma BreachMonotone(alarmType: nat, v: real, w: real, rule: AlarmRule)
    requires CheckThreshold(alarmType, v, rule)
    ensures alarmType in HighTypes && w >= v ==> CheckThreshold(alarmType, w, rule)
    ensures alarmType in LowTypes && w <= v ==> CheckThreshold(alarmType, w, rule)
  {
  }

  /** The scalar each alarm type watches is read from its own sensor. */
  lemma ValueOfWatchedSensor(alarmType: nat, r: DataCollector.Reading)
    requires SensorFor(alarmType).Some? && DataCollector.KindOf(r) == SensorFor(alarmType).value
    ensures alarmType in {TEMPERATURE_HIGH, TEMPERATURE_LOW} ==> ValueOf(alarmType, r) == r.temperature
    ensures alarmType in {HUMIDITY_HIGH, HUMIDITY_LOW} ==> ValueOf(alarmType, r) == r.humidity
    ensures alarmType == SMOKE ==> ValueOf(alarmType, r) == r.smoke
    ensures alarmType in {LIGHT_HIGH, LIGHT_LOW} ==> ValueOf(alarmType, r) == r.light
  {
  }

  // -----------------------------------------------------------------------
  // Triggering

  /** What one breach does: the record, the LED colour, whether the LED is
      set blinking at 500 ms, whether the buzzer is started, and the
      observer that receives the record. */
  datatype AlarmEvent = AlarmEvent(record: AlarmRecord, color: LedColor, blink: bool,
                                   buzzer: bool, notified: Option<nat>)

  /** The actuator decisions of `TriggerAlarm` for a rule level. */
  function EventFor(rec: AlarmRecord, cb: Option<nat>): (e: AlarmEvent)
    ensures e.record == rec && e.notified == cb && e.color == LevelColor(rec.level)
    ensures e.blink <==> rec.level >= WARNING
    ensures e.buzzer <==> rec.level >= CRITICAL
  {
    AlarmEvent(rec, LevelColor(rec.level), rec.level >= WARNING, rec.level >= CRITICAL, cb)
  }

  /** Severity is cumulative: whatever starts the buzzer also blinks. */
  lemma BuzzerImpliesBlink(rec: AlarmRecord, cb: Option<nat>)
    ensures EventFor(rec, cb).buzzer ==> EventFor(rec, cb).blink
    ensures rec.level == INFO ==> !EventFor(rec, cb).blink && EventFor(rec, cb).color == Green
    ensures rec.level == WARNING ==> EventFor(rec, cb).blink && !EventFor(rec, cb).buzzer
                                     && EventFor(rec, cb).color == Blue
    ensures rec.level == CRITICAL ==> EventFor(rec, cb).buzzer && EventFor(rec, cb).color == Red
  {
  }

  /** Whether slot `i` fires against the collector's latest samples, and
      with which value. */
  function SlotFires(rule: AlarmRule, c: DataCollector.Collector): bool
    requires DataCollector.Valid(c)
  {
    && rule.enabled
    && SensorFor(rule.alarmType).Some?
    && var sample := DataCollector.GetLatest(c, DataCollector.Code(SensorFor(rule.alarmType).value), true);
       sample.Some? && CheckThreshold(rule.alarmType, ValueOf(rule.alarmType, sample.value.reading), rule)
  }

  function SlotValue(rule: AlarmRule, c: DataCollector.Collector): real
    requires DataCollector.Valid(c) && SensorFor(rule.alarmType).Some?
  {
    ValueOf(rule.alarmType, c.latest[DataCollector.Code(SensorFor(rule.alarmType).value)].reading)
  }

  function RecordOf(rule: AlarmRule, value: real, now: nat): AlarmRecord {
    AlarmRecord(rule.alarmType, rule.level, now, value)
  }

  /** The reference for one check: the records of the firing slots among
      the first `n`, in slot order. */
  function FiredUpTo(rules: seq<AlarmRule>, c: DataCollector.Collector, now: nat, n: nat): seq<AlarmRecord>
    requires DataCollector.Valid(c) && n <= |rules|
  {
    if n == 0 then []
    else
      var rule := rules[n - 1];
      FiredUpTo(rules, c, now, n - 1)
      + (if SlotFires(rule, c) then [RecordOf(rule, SlotValue(rule, c), now)] else [])
  }

  function Records(events: seq<AlarmEvent>): (rs: seq<AlarmRecord>) {
    seq(|events|, i requires 0 <= i < |events| => events[i].record)
  }

  /** `TriggerAlarm`: append one record (when the buffer exists) and emit
      the actuator decisions and the observer call. */
  function TriggerAlarm(a: Engine, rule: AlarmRule, value: real, now: nat): (r: (Engine, AlarmEvent))
    requires Valid(a)
    ensures Valid(r.0) && r.0.rules == a.rules && r.0.callback == a.callback
    ensures r.1 == EventFor(RecordOf(rule, value, now), a.callback)
    ensures a.records.Capacity() == 0 ==> r.0.records == a.records
    ensures a.records.Capacity() > 0 ==>
              && r.0.records.Capacity() == a.records.Capacity()
              && Ring.Content(r.0.records)
                 == Ring.Tail(Ring.Content(a.records) + [RecordOf(rule, value, now)], a.records.Capacity())
  {
    var rec := RecordOf(rule, value, now);
    if a.records.Capacity() == 0 then (a, EventFor(rec, a.callback))
    else
      Ring.PushContent(a.records, rec);
      (a.(records := Ring.Push(a.records, rec)), EventFor(rec, a.callback))
  }

  /** One slot of `AlarmCheck`: trigger when the slot fires. */
  function CheckSlot(a: Engine, rule: AlarmRule, c: DataCollector.Collector, now: nat)
    : (r: (Engine, seq<AlarmEvent>))
    requires Valid(a) && DataCollector.Valid(c)
    ensures Valid(r.0) && r.0.rules == a.rules && r.0.callback == a.callback
    ensures Records(r.1) == if SlotFires(rule, c) then [RecordOf(rule, SlotValue(rule, c), now)] else []
    ensures forall j :: 0 <= j < |r.1| ==> r.1[j] == EventFor(r.1[j].record, a.callback)
    ensures a.records.Capacity() == 0 ==> r.0.records == a.records
    ensures a.records.Capacity() > 0 ==>
              && r.0.records.Capacity() == a.records.Capacity()
              && Ring.Content(r.0.records)
                 == Ring.Tail(Ring.Content(a.records) + Records(r.1), a.records.Capacity())
  {
    if !SlotFires(rule, c) then (a, [])
    else
      var fired := TriggerAlarm(a, rule, SlotValue(rule, c), now);
      assert Records([fired.1]) == [fired.1.record];
      (fired.0, [fired.1])
  }

  /** `AlarmCheck`: visit slots 0..7, skip disabled rules and rules whose
      type has no sensor, evaluate the rest against the latest samples
      (including never-written zero samples) and trigger on each breach.
      Always returns 0. */
  method Check(a: Engine, c: DataCollector.Collector, now: nat)
    returns (a': Engine, events: seq<AlarmEvent>, ret: int)
    requires Valid(a) && DataCollector.Valid(c)
    ensures ret == 0
    ensures Valid(a') && a'.rules == a.rules && a'.callback == a.callback
    ensures Records(events) == FiredUpTo(a.rules, c, now, ALARM_TYPE_COUNT)
    ensures forall i :: 0 <= i < |events| ==> events[i] == EventFor(events[i].record, a.callback)
    ensures a.records.Capacity() == 0 ==> a'.records == a.records
    ensures a.records.Capacity() > 0 ==>
              && a'.records.Capacity() == a.records.Capacity()
              && Ring.Content(a'.records)
                 == Ring.Tail(Ring.Content(a.records) + FiredUpTo(a.rules, c, now, ALARM_TYPE_COUNT),
                              a.records.Capacity())
  {
    a' := a;
    events := [];
    var i := 0;
    while i < ALARM_TYPE_COUNT
      invariant 0 <= i <= ALARM_TYPE_COUNT
      invariant Valid(a') && a'.rules == a.rules && a'.callback == a.callback
      invariant Records(events) == FiredUpTo(a.rules, c, now, i)
      invariant forall j :: 0 <= j < |events| ==> events[j] == EventFor(events[j].record, a.callback)
      invariant a.records.Capacity() == 0 ==> a'.records == a.records
      invariant a.records.Capacity() > 0 ==>
                  && a'.records.Capacity() == a.records.Capacity()
                  && Ring.Content(a'.records)
                     == Ring.Tail(Ring.Content(a.records) + FiredUpTo(a.rules, c, now, i),
                                  a.records.Capacity())
    {
      var st := CheckSlot(a', a.rules[i], c, now);
      var fired := FiredUpTo(a.rules, c, now, i);
      assert FiredUpTo(a.rules, c, now, i + 1) == fired + Records(st.1);
      if a.records.Capacity() > 0 {
        assert Ring.Content(st.0.records)
               == Ring.Tail(Ring.Content(a.records) + (fired + Records(st.1)), a.records.Capacity()) by {
          Ring.TailAppend(Ring.Content(a.records), fired, Records(st.1), a.records.Capacity());
        }
      }
      assert Records(events + st.1) == Records(events) + Records(st.1);
      a', events := st.0, events + st.1;
      i := i + 1;
    }
    ret := 0;
  }

  // -----------------------------------------------------------------------
  // Table and history operations

  /** `AlarmInit`: allocate the 100-record history; rules and observer are
      left as they were. A failed allocation has already overwritten the
      buffer pointer, so the history is left unallocated. */
  function Init(a: Engine, allocOk: bool): (r: (Engine, int))
    requires Valid(a)
    ensures Valid(r.0) && r.0.rules == a.rules && r.0.callback == a.callback
    ensures r.1 == 0 <==> allocOk
    ensures !allocOk ==> r.1 == -1 && r.0.records.Capacity() == 0
    ensures allocOk ==> r.0.records.Capacity() == DEFAULT_RECORD_CAPACITY
    ensures Ring.Content(r.0.records) == []
  {
    if !allocOk then (a.(records := Ring.Empty(0, ZeroRecord)), -1)
    else (a.(records := Ring.Empty(DEFAULT_RECORD_CAPACITY, ZeroRecord)), 0)
  }

  /** `AlarmDeinit`: free the history. */
  function Deinit(a: Engine): (r: Engine)
    requires Valid(a)
    ensures Valid(r) && r.records.Capacity() == 0 && r.rules == a.rules
  {
    a.(records := Ring.Empty(0, ZeroRecord))
  }

  /** `AlarmSetRule`: a missing rule or a type at or above 8 is refused. */
  function SetRule(a: Engine, rule: Option<AlarmRule>): (r: (Engine, int))
    requires Valid(a)
    ensures Valid(r.0)
    ensures r.1 == 0 <==> rule.Some? && rule.value.alarmType < ALARM_TYPE_COUNT
    ensures r.1 != 0 ==> r == (a, -1)
    ensures r.1 == 0 ==>
              && r.0.rules[rule.value.alarmType] == rule.value
              && r.0.records == a.records && r.0.callback == a.callback
              && forall i :: 0 <= i < ALARM_TYPE_COUNT && i != rule.value.alarmType ==>
                   r.0.rules[i] == a.rules[i]
  {
    if rule.None? || rule.value.alarmType >= ALARM_TYPE_COUNT then (a, -1)
    else (a.(rules := a.rules[rule.value.alarmType := rule.value]), 0)
  }

  /** `AlarmGetRule`. */
  function GetRule(a: Engine, alarmType: nat): (r: Option<AlarmRule>)
    requires Valid(a)
    ensures r.Some? <==> alarmType < ALARM_TYPE_COUNT
  {
    if alarmType >= ALARM_TYPE_COUNT then None else Some(a.rules[alarmType])
  }

  /** Reading a slot back returns exactly the rule last stored there. */
  lemma SetThenGet(a: Engine, rule: AlarmRule, t: nat)
    requires Valid(a) && rule.alarmType < ALARM_TYPE_COUNT
    ensures t == rule.alarmType ==> GetRule(SetRule(a, Some(rule)).0, t) == Some(rule)
    ensures t != rule.alarmType ==> GetRule(SetRule(a, Some(rule)).0, t) == GetRule(a, t)
  {
  }

  /** `AlarmEnableRule` / `AlarmDisableRule`: flip only the enabled flag. */
  function SetEnabled(a: Engine, alarmType: nat, on: bool): (r: (Engine, int))
    requires Valid(a)
    ensures Valid(r.0)
    ensures alarmType >= ALARM_TYPE_COUNT ==> r == (a, -1)
    ensures alarmType < ALARM_TYPE_COUNT ==>
              && r.1 == 0 && r.0.records == a.records && r.0.callback == a.callback
              && r.0.rules[alarmType] == a.rules[alarmType].(enabled := on)
              && forall i :: 0 <= i < ALARM_TYPE_COUNT && i != alarmType ==> r.0.rules[i] == a.rules[i]
  {
    if alarmType >= ALARM_TYPE_COUNT then (a, -1)
    else (a.(rules := a.rules[alarmType := a.rules[alarmType].(enabled := on)]), 0)
  }

  /** `AlarmGetLatestRecords`: refuses missing output buffers; otherwise
      the `min(maxCount, count)` most recent records, oldest first. */
  function GetLatestRecords(a: Engine, maxCount: nat, outputs: bool): (r: Option<seq<AlarmRecord>>)
    requires Valid(a)
    ensures r.Some? <==> outputs
    ensures r.Some? ==> r.value == Ring.Content(a.records)[a.records.count - Min(maxCount, a.records.count)..]
  {
    if !outputs then None
    else
      Ring.LatestNIsSuffix(a.records, maxCount);
      Some(Ring.LatestN(a.records, maxCount))
  }

  /** `AlarmClearRecords`: forget the history, keep the buffer. */
  function ClearRecords(a: Engine): (r: Engine)
    requires Valid(a)
    ensures Valid(r) && r.records.Capacity() == a.records.Capacity() && r.rules == a.rules
    ensures Ring.Content(r.records) == []
  {
    a.(records := Ring.Clear(a.records))
  }

  /** `AlarmRegisterCallback`: one slot, the last registration wins. */
  function RegisterCallback(a: Engine, cb: Option<nat>): (r: Engine)
    ensures r.callback == cb && r.rules == a.rules && r.records == a.records
  {
    a.(callback := cb)
  }

  // -----------------------------------------------------------------------
  // Properties

  /** A disabled slot contributes no record, whatever the samples say. */
  lemma DisabledNeverFires(rules: seq<AlarmRule>, c: DataCollector.Collector, now: nat, n: nat, i: nat)
    requires DataCollector.Valid(c) && n <= |rules| && i < n && !rules[i].enabled
    ensures forall j :: 0 <= j < |FiredUpTo(rules, c, now, n)| ==>
              FiredUpTo(rules, c, now, n)[j].alarmType != rules[i].alarmType
              || exists k :: 0 <= k < n && k != i && rules[k].enabled
                             && rules[k].alarmType == rules[i].alarmType
    decreases n
  {
    if n - 1 != i && i < n - 1 {
      DisabledNeverFires(rules, c, now, n - 1, i);
    }
    FiredFromEnabled(rules, c, now, n);
  }

  /** `rec` carries the type and level of some enabled slot among the first `n`. */
  ghost predicate FromEnabledSlot(rules: seq<AlarmRule>, n: nat, rec: AlarmRecord)
    requires n <= |rules|
  {
    exists k :: 0 <= k < n && rules[k].enabled
                && rules[k].alarmType == rec.alarmType && rules[k].level == rec.level
  }

  /** Every record a check produces comes from an enabled slot. */
  lemma {:induction false} FiredFromEnabled(rules: seq<AlarmRule>, c: DataCollector.Collector, now: nat, n: nat)
    requires DataCollector.Valid(c) && n <= |rules|
    ensures forall j :: 0 <= j < |FiredUpTo(rules, c, now, n)| ==>
              FromEnabledSlot(rules, n, FiredUpTo(rules, c, now, n)[j])
    decreases n
  {
    if n > 0 {
      FiredFromEnabled(rules, c, now, n - 1);
      var prev := FiredUpTo(rules, c, now, n - 1);
      var all := FiredUpTo(rules, c, now, n);
      forall j | 0 <= j < |all|
        ensures FromEnabledSlot(rules, n, all[j])
      {
        if j < |prev| {
          assert all[j] == prev[j];
          assert FromEnabledSlot(rules, n - 1, prev[j]);
          var k :| 0 <= k < n - 1 && rules[k].enabled
                   && rules[k].alarmType == prev[j].alarmType && rules[k].level == prev[j].level;
          assert 0 <= k < n;
        } else {
          var rule := rules[n - 1];
          assert SlotFires(rule, c);
          assert all[j] == RecordOf(rule, SlotValue(rule, c), now);
        }
      }
    }
  }

  /** With every slot disabled a check records nothing. */
  lemma AllDisabledFiresNothing(rules: seq<AlarmRule>, c: DataCollector.Collector, now: nat, n: nat)
    requires DataCollector.Valid(c) && n <= |rules|
    requires forall k :: 0 <= k < |rules| ==> !rules[k].enabled
    ensures FiredUpTo(rules, c, now, n) == []
  {
    FiredFromEnabled(rules, c, now, n);
  }

  /** A rule for TemperatureHigh at 30 with a 31-degree latest sample is the
      only enabled slot: the check appends exactly one record, carrying 31
      and the rule's level. */
  lemma TemperatureHighExample(rules: seq<AlarmRule>, c: DataCollector.Collector, now: nat, h: real)
    requires DataCollector.Valid(c) && |rules| == ALARM_TYPE_COUNT
    requires rules[0] == AlarmRule(TEMPERATURE_HIGH, CRITICAL, 30.0, -999.0, true, 0)
    requires forall k :: 1 <= k < ALARM_TYPE_COUNT ==> !rules[k].enabled
    requires c.latest[0].reading == DataCollector.Dht11Reading(31.0, h)
    ensures FiredUpTo(rules, c, now, ALARM_TYPE_COUNT) == [AlarmRecord(TEMPERATURE_HIGH, CRITICAL, now, 31.0)]
  {
    var rec := AlarmRecord(TEMPERATURE_HIGH, CRITICAL, now, 31.0);
    assert FiredUpTo(rules, c, now, 1) == [rec];
    assert FiredUpTo(rules, c, now, 2) == [rec];
    assert FiredUpTo(rules, c, now, 3) == [rec];
    assert FiredUpTo(rules, c, now, 4) == [rec];
    assert FiredUpTo(rules, c, now, 5) == [rec];
    assert FiredUpTo(rules, c, now, 6) == [rec];
    assert FiredUpTo(rules, c, now, 7) == [rec];
  }

  /** The collector answers for every sensor, so a never-collected zero
      sample is evaluated rather than skipped: an enabled TemperatureLow
      rule at or above 0 fires against a collector that has read nothing. */
  lemma ZeroSampleIsEvaluated(rule: AlarmRule)
    requires rule.enabled && rule.alarmType == TEMPERATURE_LOW && rule.thresholdLow >= 0.0
    ensures SlotFires(rule, DataCollector.Boot())
    ensures SlotValue(rule, DataCollector.Boot()) == 0.0
  {
  }
}
