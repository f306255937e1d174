/** The configuration store: one in-memory configuration (four sections and
    a 32-entry alarm rule array with a count), its validation predicate,
    the built-in defaults, and load/save against a key-value store whose
    answers are explicit inputs. */
module ConfigStore {
  import opened Common
  import Alarm

  const CONFIG_VERSION: nat := 1
  const MAX_RULES: nat := 32
  /** The smallest accepted collection and check period, in ms. */
  const MIN_INTERVAL_MS: nat := 100

  datatype ConfigError = NoError | ParamError | StorageError | VersionError | ValidateError

  datatype SystemConfig = SystemConfig(collectInterval: U32, checkInterval: U32,
                                       recordCapacity: U32, logEnabled: bool)
  datatype SensorConfig = SensorConfig(dht11Enabled: bool, mq2Enabled: bool,
                                       bh1750Enabled: bool, cacheSize: U32)
  datatype LedConfig = LedConfig(enabled: bool, brightness: U32, blinkInterval: U32)
  datatype BuzzerConfig = BuzzerConfig(enabled: bool, volume: U32, duration: U32)

  /** The stored structure; `rules` is the fixed 32-entry array of which the
      first `ruleCount` entries are in use. */
  datatype Config = Config(
    version: U32,
    system: SystemConfig,
    sensor: SensorConfig,
    led: LedConfig,
    buzzer: BuzzerConfig,
    rules: seq<Alarm.AlarmRule>,
    ruleCount: U32)

  /** The array has its declared 32 entries (every value of the structure,
      valid or not, has this shape). */
  predicate Shaped(c: Config) {
    |c.rules| == MAX_RULES
  }

  /** The module's globals. */
  datatype Store = Store(config: Config, error: ConfigError)

  /** The in-memory configuration is always shaped and never counts more
      rules than the array holds: loading validates the count, and adding
      refuses a full list. */
  predicate StoreShaped(s: Store) {
    Shaped(s.config) && s.config.ruleCount <= MAX_RULES
  }

  /** `ValidateConfig`. */
  predicate Validate(c: Config) {
    && c.version == CONFIG_VERSION
    && c.system.collectInterval >= MIN_INTERVAL_MS
    && c.system.checkInterval >= MIN_INTERVAL_MS
    && c.system.recordCapacity != 0
    && c.sensor.cacheSize != 0
    && c.led.brightness <= 100
    && c.buzzer.volume <= 100
    && c.ruleCount <= MAX_RULES
  }

  /** The rules in use, in order. */
  function ActiveRules(c: Config): (rs: seq<Alarm.AlarmRule>)
    requires Shaped(c)
  {
    c.rules[..Min(c.ruleCount, MAX_RULES)]
  }

  // -----------------------------------------------------------------------
  // Defaults

  const DefaultSystem := SystemConfig(1000, 1000, 100, true)
  const DefaultSensor := SensorConfig(true, true, true, 10)
  const DefaultLed := LedConfig(true, 100, 500)
  const DefaultBuzzer := BuzzerConfig(true, 80, 1000)
  /** TemperatureHigh at 30 and TemperatureLow at 10, both Critical. */
  const DefaultRules: seq<Alarm.AlarmRule> := [
    Alarm.AlarmRule(Alarm.TEMPERATURE_HIGH, Alarm.CRITICAL, 30.0, -999.0, true, 0),
    Alarm.AlarmRule(Alarm.TEMPERATURE_LOW, Alarm.CRITICAL, 999.0, 10.0, true, 0)
  ]

  /** `LoadDefaultConfig`: version, the four sections and the two default
      rules are copied in; the array entries from position 2 on keep
      whatever they held. */
  function LoadDefaults(c: Config): (d: Config)
    requires Shaped(c)
    ensures Shaped(d) && Validate(d)
    ensures d.ruleCount == 2 && ActiveRules(d) == DefaultRules
    ensures d.rules[2..] == c.rules[2..]
  {
    Config(CONFIG_VERSION, DefaultSystem, DefaultSensor, DefaultLed, DefaultBuzzer,
           DefaultRules + c.rules[2..], 2)
  }

  // -----------------------------------------------------------------------
  // Load and save

  /** `ConfigLoad`: a failed read latches STORAGE and an invalid blob
      VALIDATE, both leaving the configuration as it was; a valid blob
      replaces it and clears the error. */
  function Load(s: Store, stored: Option<Config>): (r: (Store, int))
    requires StoreShaped(s) && (stored.Some? ==> Shaped(stored.value))
    ensures StoreShaped(r.0)
    ensures r.1 == 0 <==> stored.Some? && Validate(stored.value)
    ensures stored.None? ==> r == (s.(error := StorageError), -1)
    ensures stored.Some? && !Validate(stored.value) ==> r == (s.(error := ValidateError), -1)
    ensures r.1 == 0 ==> r.0 == Store(stored.value, NoError)
  {
    if stored.None? then (s.(error := StorageError), -1)
    else if !Validate(stored.value) then (s.(error := ValidateError), -1)
    else (Store(stored.value, NoError), 0)
  }

  /** `ConfigSave`: an invalid configuration is never written (VALIDATE);
      a failed write latches STORAGE; success clears the error. The third
      component is the blob handed to the store, if any. */
  function Save(s: Store, writeOk: bool): (r: (Store, int, Option<Config>))
    requires StoreShaped(s)
    ensures r.0.config == s.config
    ensures r.2.Some? <==> Validate(s.config)
    ensures r.2.Some? ==> r.2.value == s.config
    ensures r.1 == 0 <==> Validate(s.config) && writeOk
    ensures !Validate(s.config) ==> r.0.error == ValidateError
    ensures Validate(s.config) ==> r.0.error == if writeOk then NoError else StorageError
  {
    if !Validate(s.config) then (s.(error := ValidateError), -1, None)
    else if !writeOk then (s.(error := StorageError), -1, Some(s.config))
    else (s.(error := NoError), 0, Some(s.config))
  }

  /** What a successful save writes, a later load reads back unchanged. */
  lemma SaveThenLoad(s: Store, other: Store)
    requires StoreShaped(s) && StoreShaped(other)
    requires Save(s, true).1 == 0
    ensures Load(other, Save(s, true).2) == (Store(s.config, NoError), 0)
  {
  }

  /** `ConfigInit`: a failed store initialisation latches STORAGE and keeps
      the configuration; otherwise load, and fall back to the defaults when
      loading fails (whose error code is then kept). */
  function Init(s: Store, storeInitOk: bool, stored: Option<Config>): (r: (Store, int))
    requires StoreShaped(s) && (stored.Some? ==> Shaped(stored.value))
    ensures StoreShaped(r.0)
    ensures !storeInitOk ==> r == (s.(error := StorageError), -1)
    ensures storeInitOk ==> r.1 == 0 && Validate(r.0.config)
    ensures storeInitOk && stored.Some? && Validate(stored.value) ==> r.0 == Store(stored.value, NoError)
    ensures storeInitOk && !(stored.Some? && Validate(stored.value)) ==>
              && r.0.config == LoadDefaults(s.config)
              && r.0.error == if stored.None? then StorageError else ValidateError
  {
    if !storeInitOk then (s.(error := StorageError), -1)
    else
      var loaded := Load(s, stored);
      if loaded.1 == 0 then (loaded.0, 0)
      else (loaded.0.(config := LoadDefaults(loaded.0.config)), 0)
  }

  /** `ConfigRestoreDefaults`: install the defaults and save them. */
  function RestoreDefaults(s: Store, writeOk: bool): (r: (Store, int))
    requires StoreShaped(s)
    ensures StoreShaped(r.0) && r.0.config == LoadDefaults(s.config)
    ensures r.1 == 0 <==> writeOk
    ensures r.0.error == if writeOk then NoError else StorageError
  {
    var saved := Save(s.(config := LoadDefaults(s.config)), writeOk);
    (saved.0, saved.1)
  }

  /** `ConfigDeinit`: save (ignoring the outcome) and return 0. */
  function Deinit(s: Store, writeOk: bool): (r: (Store, int))
    requires StoreShaped(s)
    ensures r.1 == 0 && r.0.config == s.config
  {
    (Save(s, writeOk).0, 0)
  }

  // -----------------------------------------------------------------------
  // Section setters

  /** The common shape of the four section setters: a missing section
      latches PARAM; otherwise the section is overwritten in memory first
      and then the whole configuration is saved, so a value that fails
      validation stays in memory although -1 is returned. */
  function SetThenSave(s: Store, updated: Config, writeOk: bool): (r: (Store, int))
    requires Shaped(updated) && updated.ruleCount <= MAX_RULES
    ensures StoreShaped(r.0) && r.0.config == updated
    ensures r.1 == 0 <==> Validate(updated) && writeOk
  {
    var saved := Save(s.(config := updated), writeOk);
    (saved.0, saved.1)
  }

  /** `ConfigSetSystem`. */
  function SetSystem(s: Store, section: Option<SystemConfig>, writeOk: bool): (r: (Store, int))
    requires StoreShaped(s)
    ensures StoreShaped(r.0)
    ensures section.None? ==> r == (s.(error := ParamError), -1)
    ensures section.Some? ==>
              && r.0.config == s.config.(system := section.value)
              && (r.1 == 0 <==> Validate(s.config.(system := section.value)) && writeOk)
  {
    if section.None? then (s.(error := ParamError), -1)
    else SetThenSave(s, s.config.(system := section.value), writeOk)
  }

  /** `ConfigSetSensor`. */
  function SetSensor(s: Store, section: Option<SensorConfig>, writeOk: bool): (r: (Store, int))
    requires StoreShaped(s)
    ensures StoreShaped(r.0)
    ensures section.None? ==> r == (s.(error := ParamError), -1)
    ensures section.Some? ==>
              && r.0.config == s.config.(sensor := section.value)
              && (r.1 == 0 <==> Validate(s.config.(sensor := section.value)) && writeOk)
  {
    if section.None? then (s.(error := ParamError), -1)
    else SetThenSave(s, s.config.(sensor := section.value), writeOk)
  }

  /** `ConfigSetLED`. */
  function SetLed(s: Store, section: Option<LedConfig>, writeOk: bool): (r: (Store, int))
    requires StoreShaped(s)
    ensures StoreShaped(r.0)
    ensures section.None? ==> r == (s.(error := ParamError), -1)
    ensures section.Some? ==>
              && r.0.config == s.config.(led := section.value)
              && (r.1 == 0 <==> Validate(s.config.(led := section.value)) && writeOk)
  {
    if section.None? then (s.(error := ParamError), -1)
    else SetThenSave(s, s.config.(led := section.value), writeOk)
  }

  /** `ConfigSetBuzzer`. */
  function SetBuzzer(s: Store, section: Option<BuzzerConfig>, writeOk: bool): (r: (Store, int))
    requires StoreShaped(s)
    ensures StoreShaped(r.0)
    ensures section.None? ==> r == (s.(error := ParamError), -1)
    ensures section.Some? ==>
              && r.0.config == s.config.(buzzer := section.value)
              && (r.1 == 0 <==> Validate(s.config.(buzzer := section.value)) && writeOk)
  {
    if section.None? then (s.(error := ParamError), -1)
    else SetThenSave(s, s.config.(buzzer := section.value), writeOk)
  }

  /** An out-of-range brightness is refused with VALIDATE, yet it is what
      the in-memory configuration now holds, so the configuration no longer
      validates and every later save is refused until it is corrected. */
  lemma RejectedSettingStays(s: Store, led: LedConfig, writeOk: bool)
    requires StoreShaped(s) && Validate(s.config) && led.brightness > 100
    ensures var r := SetLed(s, Some(led), writeOk);
            && r.1 == -1 && r.0.error == ValidateError
            && r.0.config.led.brightness == led.brightness
            && !Validate(r.0.config)
            && Save(r.0, true).1 == -1
  {
  }

  // -----------------------------------------------------------------------
  // Alarm rule list

  /** `ConfigAddAlarmRule`: a missing rule or a full list latches PARAM;
      otherwise the rule goes to position `ruleCount`, the count grows by
      one and the configuration is saved. */
  function AddAlarmRule(s: Store, rule: Option<Alarm.AlarmRule>, writeOk: bool): (r: (Store, int))
    requires StoreShaped(s)
    ensures StoreShaped(r.0)
    ensures rule.None? || s.config.ruleCount >= MAX_RULES ==> r == (s.(error := ParamError), -1)
    ensures rule.Some? && s.config.ruleCount < MAX_RULES ==>
              && r.0.config.ruleCount == s.config.ruleCount + 1
              && ActiveRules(r.0.config) == ActiveRules(s.config) + [rule.value]
              && r.0.config.rules[s.config.ruleCount + 1..] == s.config.rules[s.config.ruleCount + 1..]
              && (r.1 == 0 <==> Validate(r.0.config) && writeOk)
  {
    if rule.None? || s.config.ruleCount >= MAX_RULES then (s.(error := ParamError), -1)
    else
      var n := s.config.ruleCount;
      var updated := s.config.(rules := s.config.rules[n := rule.value], ruleCount := n + 1);
      assert ActiveRules(updated) == ActiveRules(s.config) + [rule.value];
      SetThenSave(s, updated, writeOk)
  }

  /** The shift loop of `ConfigDeleteAlarmRule`: entries `index + 1 ..
      count - 1` move one place down; the last used slot keeps its old
      value and every slot from `count` on is untouched. */
  method ShiftDown(rules: seq<Alarm.AlarmRule>, index: nat, count: nat) returns (r: seq<Alarm.AlarmRule>)
    requires index < count <= |rules|
    ensures |r| == |rules|
    ensures r[..count - 1] == rules[..index] + rules[index + 1..count]
    ensures r[count - 1..] == rules[count - 1..]
  {
    r := rules;
    var i := index;
    while i < count - 1
      invariant index <= i <= count - 1
      invariant |r| == |rules|
      invariant r[..index] == rules[..index]
      invariant forall j :: index <= j < i ==> r[j] == rules[j + 1]
      invariant r[i..] == rules[i..]
    {
      r := r[i := r[i + 1]];
      i := i + 1;
    }
    assert forall j :: 0 <= j < count - 1 ==>
             r[j] == (rules[..index] + rules[index + 1..count])[j];
  }

  /** `ConfigDeleteAlarmRule`: an index outside the used part latches
      PARAM; otherwise that rule is removed, the later ones keep their
      order, the count drops by one and the configuration is saved. */
  method DeleteAlarmRule(s: Store, index: nat, writeOk: bool) returns (r: Store, ret: int)
    requires StoreShaped(s)
    ensures StoreShaped(r)
    ensures index >= s.config.ruleCount ==> r == s.(error := ParamError) && ret == -1
    ensures index < s.config.ruleCount ==>
              && r.config.ruleCount == s.config.ruleCount - 1
              && ActiveRules(r.config) == ActiveRules(s.config)[..index] + ActiveRules(s.config)[index + 1..]
              && r.config.rules[s.config.ruleCount - 1..] == s.config.rules[s.config.ruleCount - 1..]
              && r.config == s.config.(rules := r.config.rules, ruleCount := r.config.ruleCount)
              && (ret == 0 <==> Validate(r.config) && writeOk)
  {
    if index >= s.config.ruleCount {
      return s.(error := ParamError), -1;
    }
    var n := s.config.ruleCount;
    var shifted := ShiftDown(s.config.rules, index, n);
    var updated := s.config.(rules := shifted, ruleCount := n - 1);
    assert ActiveRules(updated) == shifted[..n - 1];
    assert ActiveRules(s.config) == s.config.rules[..n];
    assert s.config.rules[..n][..index] == s.config.rules[..index];
    assert s.config.rules[..n][index + 1..] == s.config.rules[index + 1..n];
    var saved := SetThenSave(s, updated, writeOk);
    r, ret := saved.0, saved.1;
  }

  /** `ConfigUpdateAlarmRule`: a missing rule or an index outside the used
      part latches PARAM; otherwise only that entry is replaced and the
      configuration is saved. */
  function UpdateAlarmRule(s: Store, index: nat, rule: Option<Alarm.AlarmRule>, writeOk: bool)
    : (r: (Store, int))
    requires StoreShaped(s)
    ensures StoreShaped(r.0)
    ensures rule.None? || index >= s.config.ruleCount ==> r == (s.(error := ParamError), -1)
    ensures rule.Some? && index < s.config.ruleCount ==>
              && r.0.config.ruleCount == s.config.ruleCount
              && r.0.config.rules[index] == rule.value
              && (forall j :: 0 <= j < MAX_RULES && j != index ==> r.0.config.rules[j] == s.config.rules[j])
              && (r.1 == 0 <==> Validate(r.0.config) && writeOk)
  {
    if rule.None? || index >= s.config.ruleCount then (s.(error := ParamError), -1)
    else SetThenSave(s, s.config.(rules := s.config.rules[index := rule.value]), writeOk)
  }

  /** Adding a rule and then deleting the entry at the old count gives back
      the rules in use and their count, whatever the save answers; on a full
      table both calls are refused. */
  method AddThenDeleteActive(s: Store, rule: Alarm.AlarmRule, addOk: bool, deleteOk: bool)
    returns (r: Store)
    requires StoreShaped(s)
    ensures StoreShaped(r)
    ensures r.config.ruleCount == s.config.ruleCount
    ensures ActiveRules(r.config) == ActiveRules(s.config)
  {
    var added := AddAlarmRule(s, Some(rule), addOk).0;
    var ret;
    r, ret := DeleteAlarmRule(added, s.config.ruleCount, deleteOk);
    if s.config.ruleCount < MAX_RULES {
      assert (ActiveRules(s.config) + [rule])[..s.config.ruleCount] == ActiveRules(s.config);
    }
  }

  /** The defaults pass validation with the two temperature rules, and
      restoring them is accepted whenever the write succeeds. */
  lemma DefaultsAccepted(s: Store)
    requires StoreShaped(s)
    ensures Validate(LoadDefaults(s.config))
    ensures ActiveRules(LoadDefaults(s.config))[0].alarmType == Alarm.TEMPERATURE_HIGH
    ensures ActiveRules(LoadDefaults(s.config))[1].thresholdLow == 10.0
    ensures RestoreDefaults(s, true).1 == 0
  {
  }
}
