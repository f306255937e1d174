# Smart-home sensor node: decision logic in Dafny

This project models the sequential decision logic of a small embedded
smart-home node. The node reads a DHT11 temperature/humidity sensor, an MQ2
smoke sensor and a BH1750 light sensor. It raises alarms on thresholds,
drives a relay with a fan, a buzzer and LEDs, keeps per-device health with
automatic recovery, runs user control rules, and persists a configuration.

Every engine of the firmware is an immutable Dafny datatype stepped by pure
functions. Whatever the firmware asks of its environment becomes an explicit
parameter: sensor reads, GPIO/PWM writes, the key-value store, timer
creation, `malloc`, the kernel tick and `time()`. A parameter is either an
`int` result code (0 is success) or a `bool` answer.

Modules (one per source file, plus two shared ones):

- `Common`: `Option`, and `uint32_t` increment and subtraction with wrap-around.
- `Ring`: the bounded array-plus-write-index-plus-saturating-count buffer that
  the firmware writes out three times. It is proved once against the sequence
  of everything pushed. Both of its readers are proved: the newest `n` entries,
  and the oldest `n` retained entries.
- `DataCollector`: the Idle/Running/Error collector. It covers the fail-fast
  three-sensor tick, the manual trigger, the per-type cache and latest slot,
  and the observer.
- `Alarm`: the 8-slot rule table, the breach predicate, the record ring, and
  the LED/buzzer decisions.
- `StateManager`: the per-device Offline/Online/Error machine, callback lists,
  and the retry-bounded recovery tick.
- `SmartController`: the first-free-slot rule table, the threshold, timing and
  linkage rules, the data handler, and the action history.
- `ConfigStore`: validation, defaults, load/save error taxonomy, section
  setters, and the 32-entry alarm-rule list.
- `Relay`: error-gated relay switching, timeout protection, the fan-speed pin
  encoding, and error clearing.
- `Dht11`: the one-wire frame decoder, over an abstract line-level stream.
- `Buzzer`: frequency, the playing flag, and the PWM action sequences of the
  effects.

## Model

| member | source | states |
|---|---|---|
| Common.Inc32 | src/state/state_manager.c:156 | `error_count++` on a `uint32_t`: adds one, and wraps to 0 only from 2^32-1 |
| Common.Sub32 | src/drivers/output/relay.c:93 | the `uint32_t` difference `now - on_time`: the plain difference, or the wrapped one when the clock has passed 2^32 |
| Ring.Tail | src/data/data_collector.c:95-101 | the reference meaning of a bounded buffer: the last `n` elements of the pushed sequence (all of it when shorter), in push order |
| Ring.Empty | src/data/data_collector.c:180-182 | a freshly allocated buffer of the given capacity is valid, with index and count 0 |
| Ring.Content | src/control/smart_controller.c:272-281 | the retained entries, read oldest first from `(index - count + size) % size`, number exactly `count` |
| Ring.Push | src/data/data_collector.c:95-101 | one write keeps the invariant (index < size, count <= size), stores the item at the old index, and saturates the count at the capacity |
| Ring.PushContent | src/business/alarm.c:152-158 | after one push the retained entries are the last `size` elements of the old entries followed by the new one |
| Ring.PushContentGrow | src/business/alarm.c:152-158 | while not full, a push appends at the end and drops nothing |
| Ring.PushContentFull | src/business/alarm.c:152-158 | when full, a push drops exactly the oldest entry |
| Ring.PushAllContent | src/control/smart_controller.c:35-48 | any number of pushes retain exactly the last `size` of everything pushed, in push order |
| Ring.Clear | src/business/alarm.c:298-303 | clearing keeps the capacity and leaves no retained entry |
| Ring.LatestNIsSuffix | src/business/alarm.c:277-295 | the alarm reader returns the `min(n, count)` most recent entries, oldest first |
| Ring.OldestNIsPrefix | src/control/smart_controller.c:266-283 | the controller reader returns the `min(n, count)` oldest retained entries, not the newest |
| Ring.PushAllHolds | src/data/data_collector.c:95-101 | if a buffer holds the pushes so far, then after more pushes it holds the extended sequence of pushes |
| Ring.HoldsCount | src/data/data_collector.c:98-101 | the count equals `min(pushes, size)` |
| Ring.LatestNOfPushed | src/business/alarm.c:284-292 | the newest-`n` reader returns the last `min(n, pushes, size)` items ever pushed |
| Ring.OldestNOfPushed | src/control/smart_controller.c:272-281 | the oldest-`n` reader returns a prefix of the last `size` items pushed: the earliest retained actions |
| Ring.LatestNExample | src/business/alarm.c:277-295 | with capacity 3 and pushes 1..5, the latest three are [3, 4, 5] |
| DataCollector.TypeOfCode | include/data/data_collector.h:33-34 | exactly the codes below `SENSOR_TYPE_MAX` name a sensor, and they round-trip with `Code` |
| DataCollector.ReadSensor | src/data/data_collector.c:115-142 | a successful read yields a sample of the requested sensor type, stamped with the tick |
| DataCollector.Boot | src/data/data_collector.c:17-23 | the globals start Idle/NONE with no timer and no observer, and every latest slot is the zero-filled structure: type code 0 (DHT11), zero payload, timestamp 0 |
| DataCollector.CacheData | src/data/data_collector.c:83-112 | a missing cache fails with no change; otherwise the sample goes into its type's ring (last `size` kept), becomes that type's latest, the observer is called once, and other types are untouched |
| DataCollector.CollectData | src/data/data_collector.c:115-142 | a read failure returns -1 with nothing changed; a success caches the sample |
| DataCollector.CollectSeq | src/data/data_collector.c:149-159 | the sensors read are exactly those a pass reaches before its first failing read, and the pass returns an error iff some read failed; state, error, callback and timer are untouched |
| DataCollector.PassFailsIff | src/data/data_collector.c:149-159 | a collection pass returns an error exactly when some sensor in the list cannot be read |
| DataCollector.ProbedMeaning | src/data/data_collector.c:149-159 | a pass reads a prefix of the sensor list in order; every read but the last succeeded; it fails iff the last read failed; a pass that does not fail reads every sensor |
| DataCollector.CollectSeqStores | src/data/data_collector.c:95-159 | every sample a pass reads enters its type's ring (the last `size` kept) and becomes that type's latest, and reaches the observer once in reading order; a type with no sample or no cache keeps its ring and latest slot |
| DataCollector.TickSamples | src/data/data_collector.c:149-159 | a tick's pass yields, for each sensor, its own sample exactly when it and every sensor before it in the order DHT11, MQ2, BH1750 read successfully |
| DataCollector.TickStores | src/data/data_collector.c:95-160 | a Running tick adds each reached sensor's sample to its ring and latest slot and notifies the observer once per stored sample; sensors past the first failure keep their ring and latest slot |
| DataCollector.Tick | src/data/data_collector.c:145-160 | a no-op unless Running; otherwise it reads DHT11, MQ2, BH1750 in that order and the first failure latches ERROR/SENSOR with no further reads |
| DataCollector.AllocateCaches | src/data/data_collector.c:174-183 | it succeeds iff every remaining allocation succeeds, and each new cache is empty with the configured size |
| DataCollector.Init | src/data/data_collector.c:163-196 | a null config or a zero interval or cache size latches ERROR/PARAM; success (all allocations and the timer) gives Idle/NONE and empty caches of `cache_size` with index and count 0 |
| DataCollector.Start | src/data/data_collector.c:199-218 | starting while Running is a successful no-op; otherwise it runs iff the timer exists and starts, else ERROR/PARAM |
| DataCollector.Stop | src/data/data_collector.c:221-236 | it stops iff the timer exists and stops, giving Idle/NONE, else ERROR/PARAM |
| DataCollector.Deinit | src/data/data_collector.c:294-315 | always succeeds; the state is Idle/NONE, no timer, and every cache freed; latest slots kept |
| DataCollector.Trigger | src/data/data_collector.c:251-273 | a code at or above `SENSOR_TYPE_MAX` latches ERROR/PARAM; otherwise it reads exactly that sensor, whatever the state, and leaves the state alone |
| DataCollector.GetLatest | src/data/data_collector.c:276-284 | succeeds iff the code is valid and the output exists; the sample returned is of that type or is the zero-filled boot sample |
| DataCollector.RegisterCallback | src/data/data_collector.c:287-291 | the new observer replaces the old one |
| DataCollector.FailedTickLatches | src/data/data_collector.c:149-159 | a running tick in which any sensor cannot be read fails and latches the error state, after which every later tick is a no-op until a restart |
| DataCollector.TriggerUpdatesOnlyItsType | src/data/data_collector.c:266-272 | a successful trigger sets that type's latest slot, notifies once, and leaves other types' caches and slots unchanged |
| DataCollector.TriggerAllRejected | src/data/data_collector.c:253-264 | `SENSOR_TYPE_ALL` (0xFF) is rejected with ERROR/PARAM before any read, so the all-sensors branch is unreachable |
| DataCollector.LatestZeroAtBoot | src/data/data_collector.c:276-284 | before any collection, the latest data of every valid type is the zero-filled global of data_collector.c:17-23, whose type tag is 0 (DHT11) whatever type was asked for |
| DataCollector.TriggerKeepsHistory | src/data/data_collector.c:95-101 | a cache that holds the samples so far holds them plus the new one after a successful trigger |
| DataCollector.CacheSizeTwoExample | src/data/data_collector.c:95-109 | with cache size 2 and three triggers, the cache holds the last two samples and the latest slot is the third |
| Alarm.Boot | src/business/alarm.c:13-23 | the globals start with every rule slot zero-filled, no record buffer and no observer |
| Alarm.SensorFor | src/business/alarm.c:41-58 | an alarm type maps to a sensor iff it is one of the seven threshold types; SYSTEM_ERROR and unknown values map to none |
| Alarm.BreachIff | src/business/alarm.c:81-97 | high types (temperature, humidity, light, smoke) fire iff value >= thresholdHigh; low types fire iff value <= thresholdLow; nothing else fires |
| Alarm.BreachMonotone | src/business/alarm.c:81-97 | a breach stays a breach for a more extreme value in the rule's direction |
| Alarm.ValueOfWatchedSensor | src/business/alarm.c:61-78 | the compared value is the temperature, humidity, smoke or light field according to the alarm type |
| Alarm.EventFor | src/business/alarm.c:161-174 | the LED colour follows the level; blink iff level >= WARNING; buzzer iff level >= CRITICAL; the registered observer is notified |
| Alarm.BuzzerImpliesBlink | src/business/alarm.c:26-38 | INFO is green with no blink, WARNING blue and blinking with no buzzer, CRITICAL red with the buzzer |
| Alarm.TriggerAlarm | src/business/alarm.c:137-175 | one breach appends exactly one record {type, level, time, value} to the ring (when allocated) and yields one event |
| Alarm.CheckSlot | src/business/alarm.c:184-203 | one slot yields one record iff it fires, and the ring gains exactly those records |
| Alarm.Check | src/business/alarm.c:178-207 | always returns 0; the events are exactly the records of the firing slots in slot order 0..7; the ring holds the last `capacity` of the old records followed by those |
| Ring.TailAppend | src/business/alarm.c:183-204 | appending to a bounded buffer in two batches keeps the same last elements as appending both batches at once |
| Alarm.Init | src/business/alarm.c:210-230 | returns 0 iff the allocation succeeds, giving an empty ring of capacity 100; a failed allocation returns -1 and leaves no record buffer; rules and observer are kept either way |
| Alarm.Deinit | src/business/alarm.c:313-332 | frees the ring and keeps the rule table |
| Alarm.SetRule | src/business/alarm.c:233-241 | succeeds iff the rule exists and its type is below 8; it then replaces exactly slot `type` |
| Alarm.GetRule | src/business/alarm.c:244-252 | succeeds iff the type is below 8 |
| Alarm.SetThenGet | src/business/alarm.c:233-252 | reading a slot after storing a rule returns that rule; other slots read as before |
| Alarm.SetEnabled | src/business/alarm.c:255-274 | a type of 8 or more is rejected; otherwise only that slot's enabled flag changes |
| Alarm.GetLatestRecords | src/business/alarm.c:277-295 | null outputs are rejected; otherwise it returns the `min(maxCount, count)` most recent records, oldest first |
| Alarm.ClearRecords | src/business/alarm.c:298-303 | no records remain and the capacity is unchanged |
| Alarm.RegisterCallback | src/business/alarm.c:306-310 | the last registration wins; rules and records are untouched |
| Alarm.DisabledNeverFires | src/business/alarm.c:185-187 | a disabled slot contributes no record, unless another enabled slot has the same type |
| Alarm.FiredFromEnabled | src/business/alarm.c:185-193 | every record of a check comes from an enabled slot whose type has a sensor |
| Alarm.AllDisabledFiresNothing | src/business/alarm.c:185-187 | with every rule disabled, a check records nothing |
| Alarm.TemperatureHighExample | src/business/alarm.c:81-97 | a critical TEMPERATURE_HIGH rule at 30 with a reading of 31 produces exactly one record |
| Alarm.ZeroSampleIsEvaluated | src/business/alarm.c:195-197 | a never-collected all-zero sample is evaluated rather than skipped: a low-temperature rule with a threshold of 0 or more fires at boot |
| StateManager.Notify | src/state/state_manager.c:161-169 | a state change calls only non-NULL callbacks from the list, in order; with no NULL entry it calls all of them |
| StateManager.Save | src/state/state_manager.c:349-359 | succeeds iff the store write succeeds; a failure latches STORAGE |
| StateManager.Load | src/state/state_manager.c:362-377 | a stored snapshot replaces the manager; its absence latches STORAGE and returns -1 |
| StateManager.Init | src/state/state_manager.c:71-110 | a null config returns -1 unchanged; a failed recovery timer returns -1 after the reset; otherwise the reset manager is replaced by the stored snapshot when there is one |
| StateManager.InitialIsReset | src/state/state_manager.c:73-87 | after the reset: system INIT, network DISCONNECTED, every device OFFLINE with zero counters and no callbacks |
| StateManager.Deinit | src/state/state_manager.c:380-392 | stops the timer and keeps every state; a failed final save latches STORAGE |
| StateManager.SetSystemState | src/state/state_manager.c:119-128 | an out-of-range state latches PARAM; otherwise the state is stored and the result is the save's |
| StateManager.SetNetworkState | src/state/state_manager.c:181-190 | an out-of-range state latches PARAM; otherwise the state is stored and the result is the save's |
| StateManager.SetDeviceState | src/state/state_manager.c:141-172 | rejects a device of 5 or more or a state of 3 or more with PARAM; re-setting the current state changes nothing and calls nothing; a real change into ERROR adds one to error_count and stamps the time, other changes keep the counters, callbacks run once in order, and 0 is returned even if the save fails |
| StateManager.SetThenGet | src/state/state_manager.c:131-138 | after setting a device state, reading it back gives that state, and the device is online iff it is ONLINE |
| StateManager.ErrorEntriesCounted | src/state/state_manager.c:155-158 | only real entries into ERROR count: ERROR, ERROR, OFFLINE, ERROR adds 2 and stamps the last entry time |
| StateManager.RegisterCallback | src/state/state_manager.c:199-220 | succeeds iff the device is valid, the callback is non-NULL and the list has fewer than 8 entries; it then appends at the end, otherwise PARAM |
| StateManager.FirstMatch | src/state/state_manager.c:233-234 | finds the first entry with that function, or reports none iff there is none |
| StateManager.ShiftOut | src/state/state_manager.c:236-240 | the left shift removes exactly entry `k` and keeps the others in order |
| StateManager.UnregisterCallback | src/state/state_manager.c:223-246 | an invalid device or NULL latches PARAM; it succeeds iff the function is registered, removing only its first entry with the rest in order; otherwise -1 with nothing changed |
| StateManager.RegisterThenUnregister | src/state/state_manager.c:199-246 | registering a new function and then unregistering it restores the list |
| StateManager.Diagnose | src/state/state_manager.c:288-346 | an invalid device latches PARAM; otherwise the result is the matching probe's (sensor read, LED off, buzzer mute) and nothing changes |
| StateManager.RecoverFrom | src/state/state_manager.c:43-67 | each device in ERROR with retries left goes ONLINE with zeroed counters if its probe succeeds, or gains one retry if not; every other device is untouched; the calls are those of the recovered devices |
| StateManager.RecoveredCallsFrame | src/state/state_manager.c:43-67 | the callbacks a pass makes depend only on the devices it has not yet visited |
| StateManager.RecoveryTick | src/state/state_manager.c:38-68 | the recovery timer pass keeps the manager valid |
| StateManager.RecoveryTicks | src/state/state_manager.c:38-68 | any sequence of recovery passes keeps the manager valid |
| StateManager.RetriesBounded | src/state/state_manager.c:47-64 | over any number of recovery passes, no device's retry count exceeds `max_retry_count` |
| StateManager.ExhaustedDeviceUntouched | src/state/state_manager.c:47-48 | a device that has used all its retries is never touched by recovery again |
| StateManager.ResetDeviceErrorCount | src/state/state_manager.c:275-285 | zeroes error_count and retry_count, keeping the state and callbacks; an invalid device latches PARAM |
| StateManager.ResetMakesEligible | src/state/state_manager.c:275-285 | after a reset, an ERROR device is recovered or retried by the next pass again |
| StateManager.RetryExhaustionExample | src/state/state_manager.c:47-64 | with max 3 retries, a failing probe at retry 2 reaches 3, after which even a good probe no longer recovers the device |
| SmartController.Boot | src/control/smart_controller.c:17-23 | the zeroed globals are valid |
| SmartController.InitAsWritten | src/control/smart_controller.c:138-169 | as written, a successful init keeps the old history index and count |
| SmartController.InitStaleIndex | src/control/smart_controller.c:155-168 | re-initialising with a smaller history leaves the write index past the end of the new buffer |
| SmartController.Init | src/control/smart_controller.c:138-169 | null config or zero max_rules latches ERROR/PARAM; allocation failure latches ERROR/INIT with no table; success iff both allocations succeed, giving RUNNING/NONE, every slot unused and an empty history |
| SmartController.Deinit | src/control/smart_controller.c:172-187 | frees the table and the history and returns to IDLE/NONE |
| SmartController.FirstFree | src/control/smart_controller.c:198-204 | the lowest-index unused slot, or none iff every slot is used |
| SmartController.FirstRule | src/control/smart_controller.c:219-226 | the first used slot matching (device, type), or none iff there is no match |
| SmartController.AddRule | src/control/smart_controller.c:190-209 | a missing rule or table latches ERROR/PARAM; it succeeds iff a slot is free, storing the rule in the lowest free slot and changing nothing else; a full table latches ERROR/RULE |
| SmartController.RemoveRule | src/control/smart_controller.c:212-230 | only the first matching slot is freed; with no match it returns -1 with nothing changed |
| SmartController.EnableRule | src/control/smart_controller.c:233-251 | only the first matching slot's enabled flag changes; with no match it returns -1 with nothing changed |
| SmartController.AddThenRemove | src/control/smart_controller.c:190-230 | adding a rule with a fresh (device, type) and removing it restores the slot usage |
| SmartController.RecordHistory | src/control/smart_controller.c:33-49 | with no buffer nothing is recorded; otherwise the history keeps the last `history_size` entries with the new one at the end |
| SmartController.GetHistory | src/control/smart_controller.c:266-283 | missing outputs or buffer fail; otherwise it returns the `min(n, count)` oldest retained entries |
| SmartController.ClearHistory | src/control/smart_controller.c:286-290 | the history is emptied and keeps its capacity |
| SmartController.HistoryReturnsOldest | src/control/smart_controller.c:272-281 | with size 3 and five actions recorded, asking for 2 returns the 3rd and 4th actions, not the newest |
| SmartController.ThresholdAction | src/control/smart_controller.c:76-102 | the action is 0 or 1 |
| SmartController.ThresholdActionIff | src/control/smart_controller.c:85-99 | the action is 1 iff (upper bound and value >= threshold + hysteresis) or (lower bound and value <= threshold - hysteresis) |
| SmartController.ThresholdNoLatch | src/control/smart_controller.c:83-101 | inside the hysteresis band the action is always 0, with no latched state; an upper-bound rule that fires keeps firing for larger values |
| SmartController.DaySeconds | src/control/smart_controller.c:110-111 | the second of the day is below 86400 |
| SmartController.TimingFiresOnGrid | src/control/smart_controller.c:113-116 | inside [start, end), with a positive interval, the rule acts iff the second of the day is start plus a whole number of intervals |
| SmartController.TimingOutsideWindowIsOff | src/control/smart_controller.c:117-119 | outside the window the action is 0 |
| SmartController.LinkageAction | src/control/smart_controller.c:125-135 | a linkage rule acts iff it is used, enabled and watches the triggering device |
| SmartController.LinkageOffInverts | src/control/smart_controller.c:125-135 | for an inverting-capable rule the actions on trigger states 1 and 0 are complementary on the same target |
| SmartController.Decide | src/control/smart_controller.c:317-335 | only used, enabled, non-linkage rules act, on their own device; every used and enabled threshold rule acts |
| SmartController.DeviceCall | src/control/smart_controller.c:56-71 | the device call succeeds iff the id is 0, 1 or 2 and the device answers |
| SmartController.Executions | src/control/smart_controller.c:52-73 | each decision produces one history entry |
| SmartController.ExecuteControl | src/control/smart_controller.c:52-73 | records one history entry with result 1 iff the device call returned 0 |
| SmartController.HandleData | src/control/smart_controller.c:293-337 | missing data, no table or an unknown sensor type change nothing; otherwise every used slot is evaluated in index order and each decision is executed and recorded, in order |
| SmartController.HandleSlot | src/control/smart_controller.c:317-335 | one slot's decision is executed and appended to the history |
| SmartController.ExecutionsStep | src/control/smart_controller.c:317-335 | scanning one more slot adds exactly that slot's execution at the end |
| SmartController.ExecutionsAppend | src/control/smart_controller.c:52-73 | one more decision adds exactly one history entry, answered by its own device call |
| SmartController.DecisionsFromActiveRules | src/control/smart_controller.c:317-335 | every action taken comes from a used, enabled, non-linkage rule for that device |
| SmartController.ThresholdRulesAlwaysAct | src/control/smart_controller.c:76-101 | when all used rules are enabled threshold rules, every evaluation acts once per used slot |
| ConfigStore.LoadDefaults | src/config/config.c:107-127 | the defaults pass validation, with exactly the two default rules active |
| ConfigStore.DefaultsAccepted | src/config/config.c:14-62 | the default rules are high temperature at 30 and low temperature at 10, and restoring defaults with a good store succeeds |
| ConfigStore.Load | src/config/config.c:150-173 | succeeds iff a blob is stored and valid; a missing blob latches STORAGE and an invalid one VALIDATE, both keeping the in-memory config |
| ConfigStore.Save | src/config/config.c:176-193 | an invalid config is never written (VALIDATE); otherwise the write result decides NONE or STORAGE |
| ConfigStore.SaveThenLoad | src/config/config.c:150-193 | what a successful save writes, a later load restores exactly |
| ConfigStore.Init | src/config/config.c:130-147 | a store failure returns -1; otherwise a valid stored config is taken, or the defaults with STORAGE or VALIDATE recorded |
| ConfigStore.RestoreDefaults | src/config/config.c:299-303 | installs the defaults and succeeds iff the write succeeds |
| ConfigStore.Deinit | src/config/config.c:306-315 | always returns 0 and keeps the config |
| ConfigStore.SetThenSave | src/config/config.c:202-211 | a setter leaves the new value in memory, and succeeds iff the result validates and is written |
| ConfigStore.SetSystem | src/config/config.c:202-211 | null latches PARAM; otherwise the section is overwritten even when validation then fails |
| ConfigStore.SetSensor | src/config/config.c:214-223 | null latches PARAM; otherwise the section is overwritten even when validation then fails |
| ConfigStore.SetLed | src/config/config.c:226-235 | null latches PARAM; otherwise the section is overwritten even when validation then fails |
| ConfigStore.SetBuzzer | src/config/config.c:238-247 | null latches PARAM; otherwise the section is overwritten even when validation then fails |
| ConfigStore.RejectedSettingStays | src/config/config.c:226-235 | a brightness over 100 is refused with VALIDATE, but stays in memory and blocks every later save |
| ConfigStore.AddAlarmRule | src/config/config.c:250-261 | null or a full list (32) latches PARAM; otherwise the rule is appended to the active rules |
| ConfigStore.ShiftDown | src/config/config.c:271-274 | the shift removes entry `index` from the first `count` and keeps order |
| ConfigStore.DeleteAlarmRule | src/config/config.c:264-278 | an index at or past rule_count latches PARAM; otherwise the active rules lose exactly that entry, in order, and the count drops by one |
| ConfigStore.UpdateAlarmRule | src/config/config.c:281-290 | null or an out-of-range index latches PARAM; otherwise only that entry is replaced |
| ConfigStore.AddThenDeleteActive | src/config/config.c:250-278 | adding a rule and then deleting the entry at the old count restores the rule count and the active rules, whatever the saves answer, and also on a full table |
| Relay.SetFanGpio | src/drivers/output/relay.c:58-86 | a speed above HIGH fails with no write; pin 1 is written first and pin 2 only if pin 1 succeeded |
| Relay.FanEncodingRoundTrip | src/drivers/output/relay.c:61-85 | the two pin levels are bits, and pin1 + 2 * pin2 is the speed: OFF=(0,0), LOW=(1,0), MEDIUM=(0,1), HIGH=(1,1) |
| Relay.Init | src/drivers/output/relay.c:102-129 | succeeds iff every GPIO step succeeds; then relay OFF, fan OFF, no error; a failure latches HARDWARE |
| Relay.SetState | src/drivers/output/relay.c:132-150 | ON is refused while any error is set; a write failure latches HARDWARE and keeps the state; a success records the state and stamps `on_time` only for ON |
| Relay.GetStateAsWritten | src/drivers/output/relay.c:89-99 | as written, an expired ON sets TIMEOUT over any earlier error |
| Relay.HardwareClearedAsWritten | src/drivers/output/relay.c:89-99 | a HARDWARE fault on an ON relay becomes TIMEOUT after 6 s and can then be cleared by software |
| Relay.GetState | src/drivers/output/relay.c:89-157 | the corrected reading (see Findings): an ON relay past 5000 ms is switched OFF with TIMEOUT, but a HARDWARE fault is never downgraded; before that nothing changes |
| Relay.ClearError | src/drivers/output/relay.c:189-196 | succeeds iff the error is not HARDWARE; only the error changes, a refusal changes nothing, and after a success the relay can be switched ON again |
| Relay.SetFanSpeed | src/drivers/output/relay.c:160-174 | refused while any error is set; succeeds iff the speed is valid and both pins are written, otherwise HARDWARE |
| Relay.Deinit | src/drivers/output/relay.c:199-216 | the result is that of the GPIO release; a good write leaves the relay OFF; with no error latched and good writes the fan is stopped; a latched or newly latched error leaves the fan as it was |
| Relay.HardwareIsPermanent | src/drivers/output/relay.c:191-195 | once HARDWARE is set, no sequence of SetState, GetState, SetFanSpeed and ClearError calls clears it, changes the fan or switches the relay ON (only `RelayInit` resets it) |
| Relay.TimeoutExample | src/drivers/output/relay.c:91-97 | ON at 100 s is still ON at 105 s, OFF with TIMEOUT at 106 s, and ON is refused until the error is cleared |
| Dht11.WaitWhile | src/drivers/sensor/dht11.c:153-157 | a level wait fails only with TIMEOUT and otherwise ends within 1000 polls |
| Dht11.WaitWhileMeaning | src/drivers/sensor/dht11.c:153-157 | the wait times out iff the line stays at the level for all remaining polls; otherwise it ends at the first change |
| Dht11.Reset | src/drivers/sensor/dht11.c:106-141 | the handshake either fails with TIMEOUT or moves forward along the line |
| Dht11.ReadBit | src/drivers/sensor/dht11.c:153-172 | one bit either times out or moves forward along the line |
| Dht11.ReadBits | src/drivers/sensor/dht11.c:150-181 | reading `n` bits yields exactly `n` bits or a TIMEOUT |
| Dht11.ReadBitsFailurePersists | src/drivers/sensor/dht11.c:150-181 | a timeout in the first bits is the result of reading more bits |
| Dht11.Assemble | src/drivers/sensor/dht11.c:150-181 | assembling `n` bits gives a value below 2^n |
| Dht11.AssembleIsWeighted | src/drivers/sensor/dht11.c:150-181 | shift-and-or assembly equals the MSB-first sum of bit_i * 2^(7-i) |
| Dht11.AssembleBitsOf | src/drivers/sensor/dht11.c:150-181 | assembling the MSB-first bits of a value below 2^n gives the value back |
| Dht11.BitsOfAssemble | src/drivers/sensor/dht11.c:150-181 | the MSB-first bits of an assembled sequence are that sequence |
| Dht11.ReadByte | src/drivers/sensor/dht11.c:144-183 | the shift loop computes the assembled byte of eight bits (below 256), or TIMEOUT with no value |
| Dht11.ReadBytes | src/drivers/sensor/dht11.c:79-84 | reading `n` bytes yields `n` values below 256 or the first failing status |
| Dht11.CheckSum | src/drivers/sensor/dht11.c:186-191 | accepts iff there are exactly 5 bytes and d0+d1+d2+d3 == d4 as a plain sum |
| Dht11.LargeSumRejected | src/drivers/sensor/dht11.c:190 | a frame whose four data bytes sum past 255 is always rejected, because a byte cannot hold the sum |
| Dht11.TruncatedSumExample | src/drivers/sensor/dht11.c:190 | the frame [200, 0, 60, 0, 4] (sum 260, low byte 4) is rejected; [45, 0, 23, 5, 73] is accepted |
| Dht11.MeasurementOf | src/drivers/sensor/dht11.c:91-93 | humidity is raw0*10 + raw1 and temperature raw2*10 + raw3, in tenths |
| Dht11.Read | src/drivers/sensor/dht11.c:63-96 | a value is produced iff the status is OK; a null output gives DATA; a reset failure gives TIMEOUT before any byte; other failures are TIMEOUT or CHECKSUM |
| Dht11.FrameBitsByte | src/drivers/sensor/dht11.c:150-181 | byte `k` of a frame sits MSB-first at bits 8k..8k+7 of the line's bit sequence |
| Dht11.SensorLineTransmits | src/drivers/sensor/dht11.c:106-183 | a concrete sensor line that answers the handshake and sends any bit sequence exists |
| Dht11.BytesOnLine | src/drivers/sensor/dht11.c:144-183 | on a line sending a frame, reading `n` bytes returns the first `n` bytes of the frame |
| Dht11.FrameRoundTrip | src/drivers/sensor/dht11.c:63-96 | a sensor that answers and sends a 5-byte frame, each phase lasting one poll of the line, is decoded to exactly that measurement when the checksum holds, and gives CHECKSUM with no value otherwise |
| Dht11.IdleBitTimesOut | src/drivers/sensor/dht11.c:153-157 | a bit read on an idle line times out |
| Dht11.ShortFrameTimesOut | src/drivers/sensor/dht11.c:79-84 | a sensor that stops before five bytes gives TIMEOUT with no value |
| Dht11.StuckHighTimesOut | src/drivers/sensor/dht11.c:116-121 | a line stuck high fails the handshake with TIMEOUT |
| Dht11.Init | src/drivers/sensor/dht11.c:49-60 | initialisation succeeds iff the GPIO init and the direction setting succeed |
| Buzzer.Init | src/drivers/output/buzzer.c:25-40 | succeeds iff both port calls succeed, returning the first failure |
| Buzzer.SetFrequency | src/drivers/output/buzzer.c:43-51 | 0 is refused with no change; any other value is stored; the frequency stays non-zero |
| Buzzer.Period | src/drivers/output/buzzer.c:58 | the PWM period is the integer quotient of 1000000 by the frequency: period * f <= 10^6 < (period + 1) * f |
| Buzzer.On | src/drivers/output/buzzer.c:54-67 | a start at 50% duty with the truncated period |
| Buzzer.Repeat | src/drivers/output/buzzer.c:103-130 | a pattern repeated `n` times has `n` times its length |
| Buzzer.Effect | src/drivers/output/buzzer.c:87-143 | each effect leaves a non-zero frequency |
| Buzzer.PlayMode | src/drivers/output/buzzer.c:146-180 | refused with no effect while playing; an unknown mode fails with no effect; a valid mode succeeds and leaves `is_playing` set only for CONTINUOUS |
| Buzzer.Stop | src/drivers/output/buzzer.c:183-187 | leaves the port silent and the flag clear with the frequency kept, returns the port's answer, and afterwards every known mode is accepted |
| Buzzer.PlayingMeansSounding | src/drivers/output/buzzer.c:152-177 | after a mode, the buzzer is left sounding iff `is_playing` is set |
| Buzzer.DurationConcat | src/drivers/output/buzzer.c:87-143 | the delay time of a concatenation is the sum of the parts' delay times |
| Buzzer.DurationRepeat | src/drivers/output/buzzer.c:103-130 | a pattern repeated `n` times lasts `n` times as long |
| Buzzer.EffectDurations | src/drivers/output/buzzer.c:87-143 | single beep 200 ms, double 500 ms, continuous 0, SOS 5600 ms, alert 1800 ms |
| Buzzer.AlertLeavesLowFrequency | src/drivers/output/buzzer.c:133-143 | ALERT starts at 2000 Hz and leaves the frequency at 1500 Hz, so a later beep uses a 666 µs period |
| Buzzer.Apply | src/drivers/output/buzzer.c:43-187 | every public operation keeps the frequency non-zero |
| Buzzer.FrequencyNeverZero | src/drivers/output/buzzer.c:45-47 | over any sequence of operations the frequency stays non-zero, so the period division is always defined |
| Buzzer.ContinuousBlocksUntilStop | src/drivers/output/buzzer.c:148-150 | CONTINUOUS refuses every later mode until `BuzzerStop`, after which a valid mode is accepted |

## Left out

- Network clients (`wifi_manager.c`, `mqtt_client.c`), the LED blink threads, the OLED renderer, the BH1750 and MQ2 float-scaling wrappers, and `main.c` wiring: vendor SDK, I2C, ADC and concurrency. LED, buzzer and relay calls made by the alarm and state engines are ok/fail answers or events.
- The key-value store byte layout, including the whole-struct overwrite in `StateManagerLoad`: persistence is an ok/fail result plus an optional stored snapshot.
- CMSIS timers, `osKernelGetTickCount` and `time()`: timer creation, start and stop are result parameters, and the clock is an argument.
- Sensor values are `real` (and tenths for the DHT11), not IEEE floats; the alarm description text (`snprintf "%.2f"`) is not modelled.
- The DHT11 microsecond delays and the pulse-length threshold inside a bit: a bit is the line level sampled after the high edge, over an abstract line `nat -> nat`.
- Relay.Init: the six GPIO configuration calls of `InitGpio` are one result, because they are fail-fast and only the first failure matters.
- Buzzer.PlayMode: the port-call results inside the effects are ignored, as in the firmware; the effects are returned as a list of PWM start, stop and delay actions.
- Buzzer.PlayMode: the unknown-mode branch clears `is_playing`, but that branch is only reached when the flag is already clear, so the model leaves the buzzer unchanged.
- DataCollector.Tick: one tick is one timer callback; the timer period itself is not modelled. One pass stamps every sample with the same timestamp, whereas the firmware reads the clock once per sensor read.
- Alarm.Check: every record of one pass carries the same timestamp, whereas the firmware calls `time(NULL)` once per record.
- Alarm.Init: a failed allocation leaves the firmware's capacity, count and index as they were next to a NULL buffer, so a later record write or read dereferences NULL; the model gives an unallocated history instead and does not model that dereference.
- Alarm.GetLatestRecords: before `AlarmInit` or after `AlarmDeinit` the capacity is 0 and the firmware takes `% 0` (alarm.c:287), which is undefined; the model returns an empty list there.
- SmartController.GetHistory: after a re-init with history size 0 (smart_controller.c:154-163), the firmware keeps the old non-NULL buffer, so `ControllerGetHistory` passes its NULL check and takes `% 0`, which is undefined; the model refuses the read instead.
- Dht11.FrameRoundTrip: proved for a sensor whose every line phase lasts exactly one poll; a sensor that holds a level over several polls is not covered.
- SmartController.HandleData: all decisions of one pass use the single tick passed in; the real `osKernelGetTickCount` may advance between slots.
- SmartController.Decide: the timing window is computed with unbounded arithmetic on the second of the day; inside the window the second of the day is at least the start, so the firmware's `uint32_t` subtraction does not wrap and the two agree.
- SmartController.LinkageAction: linkage rules are never executed by `ControllerHandleData`; the function only states what the evaluator computes.
- Rule type codes outside the three defined kinds cannot be represented, because a rule's configuration is a datatype with one constructor per kind.
- ConfigStore.SetSystem, ConfigStore.SetSensor, ConfigStore.SetLed, ConfigStore.SetBuzzer: the setters overwrite the section before validating, which is what the code does.
- StateManager.Diagnose: the sensor reads and LED/buzzer commands are probe answers; only the dispatch is modelled.
- The test programs and the functions they call that no file defines.

## Findings

| source | as written | input that shows it | evidently intended | confidence | as-written member | corrected member |
|---|---|---|---|---|---|---|
| src/control/smart_controller.c:138-169 | `ControllerInit` reallocates the history but never resets `g_history_index` and `g_history_count` | init with history_size 4, record 3 actions (index 3), then init again with history_size 2: the next write goes to slot 3 of a 2-entry buffer | a fresh history with index and count 0 | high, not executed | SmartController.InitStaleIndex | SmartController.Init |
| src/drivers/output/relay.c:89-99 | the timeout check sets TIMEOUT even when a HARDWARE error is already latched, after which `RelayClearError` accepts the clear | relay ON with a HARDWARE error, `RelayGetState` more than 5 s after switching ON: the error becomes TIMEOUT and a clear succeeds | a hardware fault is never replaced by a timeout and stays uncleared (relay.c:191-195) | medium, not executed | Relay.HardwareClearedAsWritten | Relay.GetState, Relay.HardwareIsPermanent |
