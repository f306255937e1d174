/** The data collection engine: one sample cache (a ring) and one latest
    slot per sensor type, an Idle/Running/Error state machine, a fail-fast
    periodic tick and a manual trigger. Sensor drivers, the CMSIS timer, the
    kernel tick clock and `malloc` are oracle parameters. */
module DataCollector {
  import opened Common
  import Ring

  // -----------------------------------------------------------------------
  // Sensors and samples

  datatype SensorType = Dht11 | Mq2 | Bh1750

  /** `SENSOR_TYPE_MAX`: codes 0, 1, 2 name the three sensors. */
  const SENSOR_TYPE_MAX: nat := 3
  /** `SENSOR_TYPE_ALL`: declared, but never below `SENSOR_TYPE_MAX`. */
  const SENSOR_TYPE_ALL: nat := 0xFF

  /** The order in which a tick visits the sensors. */
  const SensorOrder: seq<SensorType> := [Dht11, Mq2, Bh1750]

  function Code(t: SensorType): (n: nat)
    ensures n < SENSOR_TYPE_MAX
  {
    match t
    case Dht11 => 0
    case Mq2 => 1
    case Bh1750 => 2
  }

  function TypeOfCode(n: nat): (t: Option<SensorType>)
    ensures t.Some? <==> n < SENSOR_TYPE_MAX
    ensures t.Some? ==> Code(t.value) == n
  {
    if n == 0 then Some(Dht11)
    else if n == 1 then Some(Mq2)
    else if n == 2 then Some(Bh1750)
    else None
  }

  /** The payload, tagged by the sensor that produced it. */
  datatype Reading =
    | Dht11Reading(temperature: real, humidity: real)
    | Mq2Reading(smoke: real)
    | Bh1750Reading(light: real)

  function KindOf(r: Reading): SensorType {
    match r
    case Dht11Reading(_, _) => Dht11
    case Mq2Reading(_) => Mq2
    case Bh1750Reading(_) => Bh1750
  }

  /** A sample: payload plus the kernel tick at which it was read. */
  datatype SensorSample = SensorSample(reading: Reading, timestamp: nat)

  /** The zero-filled `SensorData` every latest slot holds at power-on:
      type code 0 (DHT11), a zero payload and timestamp 0, whichever
      sensor's slot it sits in. */
  const BootSample: SensorSample := SensorSample(Dht11Reading(0.0, 0.0), 0)

  /** What the three sensor drivers answer during one collection: a value
      or a failure per sensor, and the kernel tick. */
  datatype Probe = Probe(dht11: Option<(real, real)>, mq2: Option<real>,
                         bh1750: Option<real>, tick: nat)

  /** `CollectDHT11Data` / `CollectMQ2Data` / `CollectBH1750Data`. */
  function ReadSensor(p: Probe, t: SensorType): (s: Option<SensorSample>)
    ensures s.Some? ==> KindOf(s.value.reading) == t && s.value.timestamp == p.tick
  {
    match t
    case Dht11 =>
      if p.dht11.None? then None
      else Some(SensorSample(Dht11Reading(p.dht11.value.0, p.dht11.value.1), p.tick))
    case Mq2 =>
      if p.mq2.None? then None else Some(SensorSample(Mq2Reading(p.mq2.value), p.tick))
    case Bh1750 =>
      if p.bh1750.None? then None else Some(SensorSample(Bh1750Reading(p.bh1750.value), p.tick))
  }

  // -----------------------------------------------------------------------
  // Engine state

  datatype CollectorState = Idle | Running | Error
  datatype CollectorError = NoError | ParamError | MemoryError | SensorError

  datatype CollectorConfig = CollectorConfig(collectInterval: nat, cacheSize: nat)

  /** The module's globals. `caches[i]` and `latest[i]` belong to the sensor
      with code `i`; a cache of capacity 0 was never allocated (or was
      freed); `timer` says whether a timer handle exists; `callback` is the
      single registered data observer. */
  datatype Collector = Collector(
    state: CollectorState,
    error: CollectorError,
    config: CollectorConfig,
    timer: bool,
    caches: seq<Ring.Ring<SensorSample>>,
    latest: seq<SensorSample>,
    callback: Option<nat>)

  predicate Valid(c: Collector) {
    && |c.caches| == SENSOR_TYPE_MAX
    && |c.latest| == SENSOR_TYPE_MAX
    && (forall i :: 0 <= i < SENSOR_TYPE_MAX ==> Ring.Valid(c.caches[i]))
    && (forall t: SensorType ::
          KindOf(c.latest[Code(t)].reading) == t || c.latest[Code(t)] == BootSample)
  }

  /** The zero-initialised globals at power-on. */
  function Boot(): (c: Collector)
    ensures Valid(c)
    ensures c.state == Idle && c.error == NoError && !c.timer && c.callback.None?
    ensures forall i :: 0 <= i < SENSOR_TYPE_MAX ==> c.latest[i] == BootSample
  {
    Collector(Idle, NoError, CollectorConfig(0, 0), false,
              [Ring.Empty(0, BootSample), Ring.Empty(0, BootSample), Ring.Empty(0, BootSample)],
              [BootSample, BootSample, BootSample],
              None)
  }

  /** One delivery of a sample to the registered data observer. */
  datatype Notification = Notification(callback: nat, sample: SensorSample)

  /** The result of an operation: the new globals, the C return value, the
      observer deliveries in order, and the sensors that were read. */
  datatype Step = Step(c: Collector, ret: int, notes: seq<Notification>,
                       probed: seq<SensorType>)

  function UpdateState(c: Collector, s: CollectorState, e: CollectorError): Collector {
    c.(state := s, error := e)
  }

  function Notify(cb: Option<nat>, s: SensorSample): (n: seq<Notification>)
    ensures cb.None? ==> n == []
    ensures cb.Some? ==> n == [Notification(cb.value, s)]
  {
    if cb.None? then [] else [Notification(cb.value, s)]
  }

  // -----------------------------------------------------------------------
  // Collection

  /** `CacheData`: push the sample into its type's ring, copy it into the
      latest slot and hand it to the observer. An unallocated cache refuses
      the sample and nothing changes. */
  function CacheData(c: Collector, s: SensorSample): (r: Step)
    requires Valid(c)
    ensures Valid(r.c)
    ensures r.probed == [] && r.c.state == c.state && r.c.error == c.error
    ensures r.c.callback == c.callback && r.c.timer == c.timer && r.c.config == c.config
    ensures var k := Code(KindOf(s.reading));
      if c.caches[k].Capacity() == 0 then r == Step(c, -1, [], [])
      else
        && r.ret == 0
        && r.c.caches[k].Capacity() == c.caches[k].Capacity()
        && Ring.Content(r.c.caches[k])
           == Ring.Tail(Ring.Content(c.caches[k]) + [s], c.caches[k].Capacity())
        && r.c.latest[k] == s
        && r.notes == Notify(c.callback, s)
        && (forall j :: 0 <= j < SENSOR_TYPE_MAX && j != k ==>
              r.c.caches[j] == c.caches[j] && r.c.latest[j] == c.latest[j])
  {
    var k := Code(KindOf(s.reading));
    if c.caches[k].Capacity() == 0 then Step(c, -1, [], [])
    else
      Ring.PushContent(c.caches[k], s);
      var c' := c.(caches := c.caches[k := Ring.Push(c.caches[k], s)],
                   latest := c.latest[k := s]);
      Step(c', 0, Notify(c.callback, s), [])
  }

  /** `CollectData`: read one sensor; on success cache it. The return value
      reports the read only: a refused cache write still returns 0. */
  function CollectData(c: Collector, t: SensorType, p: Probe): (r: Step)
    requires Valid(c)
    ensures Valid(r.c) && r.probed == [t]
    ensures r.c.state == c.state && r.c.error == c.error
    ensures r.ret == 0 <==> ReadSensor(p, t).Some?
    ensures r.ret == 0 || r.ret == -1
    ensures ReadSensor(p, t).None? ==> r.c == c && r.notes == []
    ensures ReadSensor(p, t).Some? ==>
              r.c == CacheData(c, ReadSensor(p, t).value).c
              && r.notes == CacheData(c, ReadSensor(p, t).value).notes
  {
    var s := ReadSensor(p, t);
    if s.None? then Step(c, -1, [], [t])
    else
      var cached := CacheData(c, s.value);
      Step(cached.c, 0, cached.notes, [t])
  }

  /** The sensors a fail-fast pass over `ts` reads: each in turn, up to
      and including the first one whose read fails. */
  function Probed(ts: seq<SensorType>, p: Probe): seq<SensorType>
    decreases |ts|
  {
    if ts == [] then []
    else if ReadSensor(p, ts[0]).None? then [ts[0]]
    else [ts[0]] + Probed(ts[1..], p)
  }

  /** Whether some read of a fail-fast pass over `ts` fails. */
  function PassFails(ts: seq<SensorType>, p: Probe): bool
    decreases |ts|
  {
    ts != [] && (ReadSensor(p, ts[0]).None? || PassFails(ts[1..], p))
  }

  /** A pass fails exactly when some sensor of `ts` cannot be read. */
  lemma {:induction false} PassFailsIff(ts: seq<SensorType>, p: Probe)
    ensures PassFails(ts, p) <==> exists i :: 0 <= i < |ts| && ReadSensor(p, ts[i]).None?
    decreases |ts|
  {
    if ts != [] {
      PassFailsIff(ts[1..], p);
      assert forall i :: 0 < i < |ts| ==> ts[i] == ts[1..][i - 1];
      if PassFails(ts[1..], p) {
        var j :| 0 <= j < |ts[1..]| && ReadSensor(p, ts[1..][j]).None?;
        assert ReadSensor(p, ts[j + 1]).None?;
      }
    }
  }

  /** What a pass reads: a prefix of `ts`, non-empty when `ts` is, every
      read but the last one succeeded, the pass fails exactly when the last
      read failed, and a pass that does not fail reads all of `ts`. */
  lemma {:induction false} ProbedMeaning(ts: seq<SensorType>, p: Probe)
    ensures var pr := Probed(ts, p);
            && (0 < |pr| <= |ts| || (ts == [] && pr == []))
            && pr == ts[..|pr|]
            && (forall i :: 0 <= i < |pr| - 1 ==> ReadSensor(p, pr[i]).Some?)
            && (PassFails(ts, p) <==> pr != [] && ReadSensor(p, pr[|pr| - 1]).None?)
            && (!PassFails(ts, p) ==> pr == ts)
    decreases |ts|
  {
    if ts != [] && ReadSensor(p, ts[0]).Some? {
      var rest := Probed(ts[1..], p);
      ProbedMeaning(ts[1..], p);
      assert rest == ts[1..][..|rest|];
      var pr := [ts[0]] + rest;
      assert forall i :: 0 < i < |pr| ==> pr[i] == rest[i - 1];
      assert pr == ts[..|pr|];
      assert !PassFails(ts, p) ==> rest == ts[1..];
    }
  }

  /** Reads the sensors of `ts` in order and stops at the first failure. */
  function CollectSeq(c: Collector, ts: seq<SensorType>, p: Probe): (r: Step)
    requires Valid(c)
    ensures Valid(r.c) && r.c.state == c.state && r.c.error == c.error
    ensures r.c.callback == c.callback && r.c.timer == c.timer
    ensures r.probed == Probed(ts, p)
    ensures r.ret == if PassFails(ts, p) then -1 else 0
    decreases |ts|
  {
    if ts == [] then Step(c, 0, [], [])
    else
      var first := CollectData(c, ts[0], p);
      if first.ret != 0 then first
      else
        var rest := CollectSeq(first.c, ts[1..], p);
        Step(rest.c, rest.ret, first.notes + rest.notes, [ts[0]] + rest.probed)
  }

  /** The samples a fail-fast pass over `ts` reads successfully, in order. */
  function Samples(ts: seq<SensorType>, p: Probe): seq<SensorSample>
    decreases |ts|
  {
    if ts == [] || ReadSensor(p, ts[0]).None? then []
    else [ReadSensor(p, ts[0]).value] + Samples(ts[1..], p)
  }

  /** The samples of `xs` that belong to the sensor with code `k`. */
  function OfCode(xs: seq<SensorSample>, k: nat): seq<SensorSample>
    decreases |xs|
  {
    if xs == [] then []
    else (if Code(KindOf(xs[0].reading)) == k then [xs[0]] else []) + OfCode(xs[1..], k)
  }

  /** The observer deliveries of caching `xs` in order: a sample whose
      cache is unallocated is refused and reaches nobody. */
  function Delivered(c: Collector, xs: seq<SensorSample>): seq<Notification>
    requires Valid(c)
    decreases |xs|
  {
    if xs == [] then []
    else
      (if c.caches[Code(KindOf(xs[0].reading))].Capacity() > 0 then Notify(c.callback, xs[0]) else [])
      + Delivered(c, xs[1..])
  }

  /** What caching the samples `xs` of one sensor does to its slot: an
      unallocated cache, or no sample, leaves cache and latest slot as they
      were; otherwise the cache keeps the last `capacity` of its old content
      followed by `xs`, and the latest slot holds the last of `xs`. */
  predicate Stored(before: Ring.Ring<SensorSample>, latest: SensorSample,
                   after: Ring.Ring<SensorSample>, latest': SensorSample, xs: seq<SensorSample>)
    requires Ring.Valid(before) && Ring.Valid(after)
  {
    if xs == [] || before.Capacity() == 0 then after == before && latest' == latest
    else
      && after.Capacity() == before.Capacity()
      && Ring.Content(after) == Ring.Tail(Ring.Content(before) + xs, before.Capacity())
      && latest' == xs[|xs| - 1]
  }

  /** Deliveries depend only on the observer and on which caches exist. */
  lemma {:induction false} DeliveredFrame(c: Collector, c': Collector, xs: seq<SensorSample>)
    requires Valid(c) && Valid(c') && c'.callback == c.callback
    requires forall k :: 0 <= k < SENSOR_TYPE_MAX ==> c'.caches[k].Capacity() == c.caches[k].Capacity()
    ensures Delivered(c', xs) == Delivered(c, xs)
    decreases |xs|
  {
    if xs != [] {
      DeliveredFrame(c, c', xs[1..]);
    }
  }

  /** One cached sample followed by the samples of the rest of the pass,
      for a sensor whose cache exists. */
  lemma StoredCons(before: Ring.Ring<SensorSample>, latest: SensorSample,
                   mid: Ring.Ring<SensorSample>, after: Ring.Ring<SensorSample>, latest': SensorSample,
                   s: SensorSample, xs: seq<SensorSample>)
    requires Ring.Valid(before) && Ring.Valid(mid) && Ring.Valid(after) && before.Capacity() > 0
    requires mid.Capacity() == before.Capacity()
    requires Ring.Content(mid) == Ring.Tail(Ring.Content(before) + [s], before.Capacity())
    requires Stored(mid, s, after, latest', xs)
    ensures Stored(before, latest, after, latest', [s] + xs)
  {
    if xs != [] {
      Ring.TailAppend(Ring.Content(before), [s], xs, before.Capacity());
      assert ([s] + xs)[|[s] + xs| - 1] == xs[|xs| - 1];
    }
  }

  /** A pass reaches the observer once per sample it reads, in order. */
  lemma {:induction false} CollectSeqDelivers(c: Collector, ts: seq<SensorType>, p: Probe)
    requires Valid(c)
    ensures CollectSeq(c, ts, p).notes == Delivered(c, Samples(ts, p))
    decreases |ts|
  {
    if ts != [] && ReadSensor(p, ts[0]).Some? {
      var s := ReadSensor(p, ts[0]).value;
      var first := CacheData(c, s);
      var got' := Samples(ts[1..], p);
      assert CollectSeq(c, ts, p).notes == first.notes + CollectSeq(first.c, ts[1..], p).notes;
      CollectSeqDelivers(first.c, ts[1..], p);
      DeliveredFrame(c, first.c, got');
      assert Samples(ts, p) == [s] + got';
      assert ([s] + got')[1..] == got';
    }
  }

  /** What a pass stores for the sensor with code `k`. */
  lemma {:induction false} CollectSeqStoresAt(c: Collector, ts: seq<SensorType>, p: Probe, k: nat)
    requires Valid(c) && k < SENSOR_TYPE_MAX
    ensures var r := CollectSeq(c, ts, p);
            Stored(c.caches[k], c.latest[k], r.c.caches[k], r.c.latest[k], OfCode(Samples(ts, p), k))
    decreases |ts|
  {
    if ts != [] && ReadSensor(p, ts[0]).Some? {
      var s := ReadSensor(p, ts[0]).value;
      var c1 := CacheData(c, s).c;
      var got' := Samples(ts[1..], p);
      var r := CollectSeq(c, ts, p);
      assert r.c == CollectSeq(c1, ts[1..], p).c;
      CollectSeqStoresAt(c1, ts[1..], p, k);
      assert Samples(ts, p) == [s] + got';
      assert ([s] + got')[1..] == got';
      if k != Code(KindOf(s.reading)) {
        assert OfCode([s] + got', k) == OfCode(got', k);
      } else if c.caches[k].Capacity() > 0 {
        assert OfCode([s] + got', k) == [s] + OfCode(got', k);
        StoredCons(c.caches[k], c.latest[k], c1.caches[k], r.c.caches[k], r.c.latest[k], s, OfCode(got', k));
      }
    }
  }

  /** What a pass stores: every sample it reads successfully enters its
      sensor's cache and becomes that sensor's latest sample, and reaches
      the observer once, in reading order; a sensor with no successful read,
      or with no cache, keeps its cache and latest slot. */
  lemma CollectSeqStores(c: Collector, ts: seq<SensorType>, p: Probe)
    requires Valid(c)
    ensures var r := CollectSeq(c, ts, p);
            var got := Samples(ts, p);
            && r.notes == Delivered(c, got)
            && forall k :: 0 <= k < SENSOR_TYPE_MAX ==>
                 Stored(c.caches[k], c.latest[k], r.c.caches[k], r.c.latest[k], OfCode(got, k))
  {
    CollectSeqDelivers(c, ts, p);
    forall k | 0 <= k < SENSOR_TYPE_MAX
      ensures var r := CollectSeq(c, ts, p);
              Stored(c.caches[k], c.latest[k], r.c.caches[k], r.c.latest[k], OfCode(Samples(ts, p), k))
    {
      CollectSeqStoresAt(c, ts, p, k);
    }
  }

  /** `TimerCallback`: a no-op unless Running; otherwise DHT11, MQ2, BH1750
      in that order, and the first failure latches Error/Sensor. */
  function Tick(c: Collector, p: Probe): (r: Step)
    requires Valid(c)
    ensures Valid(r.c)
    ensures c.state != Running ==> r == Step(c, 0, [], [])
    ensures c.state == Running ==>
      && 0 < |r.probed| <= 3 && r.probed == SensorOrder[..|r.probed|]
      && (forall i :: 0 <= i < |r.probed| - 1 ==> ReadSensor(p, r.probed[i]).Some?)
      && (var failed := ReadSensor(p, r.probed[|r.probed| - 1]).None?;
          && (failed ==> r.c.state == Error && r.c.error == SensorError)
          && (!failed ==> r.probed == SensorOrder && r.c.state == Running
                          && r.c.error == c.error))
  {
    if c.state != Running then Step(c, 0, [], [])
    else
      ProbedMeaning(SensorOrder, p);
      var r := CollectSeq(c, SensorOrder, p);
      if r.ret != 0 then r.(c := UpdateState(r.c, Error, SensorError)) else r
  }

  /** Sensor `t` is read by a pass, and successfully so, exactly when it and
      every sensor before it in the order succeed. */
  predicate Reached(p: Probe, t: SensorType)
    ensures Reached(p, t) ==> ReadSensor(p, t).Some?
  {
    assert SensorOrder[Code(t)] == t;
    forall j :: 0 <= j <= Code(t) ==> ReadSensor(p, SensorOrder[j]).Some?
  }

  lemma OfCodeCons(x: SensorSample, xs: seq<SensorSample>, k: nat)
    ensures OfCode([x] + xs, k) == (if Code(KindOf(x.reading)) == k then [x] else []) + OfCode(xs, k)
  {
    assert ([x] + xs)[1..] == xs;
  }

  /** The samples of a fail-fast pass over the fixed order: DHT11, MQ2 and
      BH1750 as far as the first failed read. */
  lemma SamplesOfOrder(p: Probe)
    ensures var a, b, e := ReadSensor(p, Dht11), ReadSensor(p, Mq2), ReadSensor(p, Bh1750);
            Samples(SensorOrder, p)
            == if a.None? then []
               else [a.value] + if b.None? then [] else [b.value] + if e.None? then [] else [e.value]
  {
    assert SensorOrder[1..] == [Mq2, Bh1750] && SensorOrder[1..][1..] == [Bh1750];
    assert [Bh1750][1..] == [];
  }

  /** A pass reaches sensor `t` when every read up to and including its
      own succeeds. */
  lemma ReachedOrder(p: Probe, t: SensorType)
    ensures var a, b, e := ReadSensor(p, Dht11), ReadSensor(p, Mq2), ReadSensor(p, Bh1750);
            Reached(p, t) <==> a.Some? && (t == Dht11 || (b.Some? && (t == Mq2 || e.Some?)))
  {
    assert SensorOrder[0] == Dht11 && SensorOrder[1] == Mq2 && SensorOrder[2] == Bh1750;
  }

  /** A fail-fast pass over the fixed order yields, for each sensor, its
      own sample when the pass reaches it and nothing otherwise. */
  lemma TickSamples(p: Probe, t: SensorType)
    ensures OfCode(Samples(SensorOrder, p), Code(t))
            == if Reached(p, t) then [ReadSensor(p, t).value] else []
  {
    var a, b, e := ReadSensor(p, Dht11), ReadSensor(p, Mq2), ReadSensor(p, Bh1750);
    var k := Code(t);
    SamplesOfOrder(p);
    ReachedOrder(p, t);
    var s3 := if e.None? then [] else [e.value];
    var s2 := if b.None? then [] else [b.value] + s3;
    var own := if Reached(p, t) then [ReadSensor(p, t).value] else [];
    assert OfCode(s3, k) == if e.Some? && t == Bh1750 then [e.value] else [] by {
      if e.Some? { OfCodeCons(e.value, [], k); }
    }
    assert OfCode(s2, k) == if b.Some? && (t == Mq2 || (t == Bh1750 && e.Some?)) then [ReadSensor(p, t).value] else [] by {
      if b.Some? { OfCodeCons(b.value, s3, k); }
    }
    if a.Some? {
      OfCodeCons(a.value, s2, k);
      assert OfCode([a.value] + s2, k) == own;
    }
  }

  /** A tick's deliveries, caches and latest slots are those of its pass;
      a failure only latches the state. */
  lemma TickKeepsPass(c: Collector, p: Probe)
    requires Valid(c) && c.state == Running
    ensures var r, pass := Tick(c, p), CollectSeq(c, SensorOrder, p);
            r.notes == pass.notes && r.c.caches == pass.c.caches && r.c.latest == pass.c.latest
  {
  }

  /** What a tick from `c` to `c'` stores for sensor `t`: its own sample
      when the pass reaches it, nothing otherwise. */
  predicate TickStored(c: Collector, c': Collector, p: Probe, t: SensorType)
    requires Valid(c) && Valid(c')
  {
    Stored(c.caches[Code(t)], c.latest[Code(t)], c'.caches[Code(t)], c'.latest[Code(t)],
           if Reached(p, t) then [ReadSensor(p, t).value] else [])
  }

  /** What one timer tick stores for sensor `t` while Running. */
  lemma TickStoresAt(c: Collector, p: Probe, t: SensorType)
    requires Valid(c) && c.state == Running
    ensures TickStored(c, Tick(c, p).c, p, t)
  {
    TickKeepsPass(c, p);
    CollectSeqStoresAt(c, SensorOrder, p, Code(t));
    TickSamples(p, t);
  }

  /** What one timer tick stores while Running: each sensor the pass reaches
      adds its sample to its cache (when the cache exists) and makes it the
      latest sample; a sensor past the first failure keeps its cache and
      latest slot; the observer hears of each stored sample once, in order. */
  lemma TickStores(c: Collector, p: Probe)
    requires Valid(c) && c.state == Running
    ensures Tick(c, p).notes == Delivered(c, Samples(SensorOrder, p))
    ensures forall t: SensorType :: TickStored(c, Tick(c, p).c, p, t)
  {
    TickKeepsPass(c, p);
    CollectSeqDelivers(c, SensorOrder, p);
    forall t: SensorType
      ensures TickStored(c, Tick(c, p).c, p, t)
    {
      TickStoresAt(c, p, t);
    }
  }

  // -----------------------------------------------------------------------
  // Lifecycle

  /** Allocate one ring per sensor in order; the first failed allocation
      leaves that cache unallocated and stops. */
  function AllocateCaches(caches: seq<Ring.Ring<SensorSample>>, size: nat,
                          allocOk: SensorType -> bool, from: nat): (r: (seq<Ring.Ring<SensorSample>>, bool))
    requires |caches| == SENSOR_TYPE_MAX && from <= SENSOR_TYPE_MAX
    requires forall i :: 0 <= i < SENSOR_TYPE_MAX ==> Ring.Valid(caches[i])
    ensures |r.0| == SENSOR_TYPE_MAX
    ensures forall i :: 0 <= i < SENSOR_TYPE_MAX ==> Ring.Valid(r.0[i])
    ensures forall i :: 0 <= i < from ==> r.0[i] == caches[i]
    ensures r.1 <==> forall i :: from <= i < SENSOR_TYPE_MAX ==> allocOk(SensorOrder[i])
    ensures r.1 ==> forall i :: from <= i < SENSOR_TYPE_MAX ==>
                      r.0[i].Capacity() == size && Ring.Content(r.0[i]) == []
    decreases SENSOR_TYPE_MAX - from
  {
    if from == SENSOR_TYPE_MAX then (caches, true)
    else
      var t := SensorOrder[from];
      if !allocOk(t) then (caches[from := Ring.Empty(0, BootSample)], false)
      else AllocateCaches(caches[from := Ring.Empty(size, BootSample)], size, allocOk, from + 1)
  }

  /** `CollectorInit`: validate the configuration, allocate the caches and
      create the timer. Latest slots and the observer are kept. */
  function Init(c: Collector, config: Option<CollectorConfig>,
                allocOk: SensorType -> bool, timerOk: bool): (r: Step)
    requires Valid(c)
    ensures Valid(r.c) && r.notes == [] && r.probed == []
    ensures r.c.latest == c.latest && r.c.callback == c.callback
    ensures (config.None? || config.value.collectInterval == 0 || config.value.cacheSize == 0)
            ==> r.ret == -1 && r == Step(UpdateState(c, Error, ParamError), -1, [], [])
    ensures r.ret == 0 <==>
              && config.Some? && config.value.collectInterval > 0 && config.value.cacheSize > 0
              && (forall t: SensorType :: allocOk(t)) && timerOk
    ensures r.ret == 0 ==>
              && r.c.state == Idle && r.c.error == NoError && r.c.timer
              && r.c.config == config.value
              && forall i :: 0 <= i < SENSOR_TYPE_MAX ==>
                   && r.c.caches[i].Capacity() == config.value.cacheSize
                   && r.c.caches[i].count == 0 && r.c.caches[i].index == 0
    ensures r.ret != 0 ==> r.ret == -1 && r.c.state == Error
  {
    if config.None? || config.value.collectInterval == 0 || config.value.cacheSize == 0 then
      Step(UpdateState(c, Error, ParamError), -1, [], [])
    else
      var alloc := AllocateCaches(c.caches, config.value.cacheSize, allocOk, 0);
      var c1 := c.(config := config.value, caches := alloc.0);
      assert alloc.1 <==> forall t: SensorType :: allocOk(t) by {
        if alloc.1 {
          forall t: SensorType ensures allocOk(t) {
            assert t == SensorOrder[Code(t)];
          }
        }
      }
      if !alloc.1 then Step(UpdateState(c1, Error, MemoryError), -1, [], [])
      else if !timerOk then Step(UpdateState(c1.(timer := false), Error, ParamError), -1, [], [])
      else Step(UpdateState(c1.(timer := true), Idle, NoError), 0, [], [])
  }

  /** `CollectorStart`: already Running is a successful no-op; without a
      timer, or when the timer refuses to start, Error/Param. */
  function Start(c: Collector, timerStartOk: bool): (r: Step)
    requires Valid(c)
    ensures Valid(r.c) && r.notes == [] && r.probed == []
    ensures c.state == Running ==> r == Step(c, 0, [], [])
    ensures c.state != Running ==>
              if c.timer && timerStartOk
              then r == Step(UpdateState(c, Running, NoError), 0, [], [])
              else r == Step(UpdateState(c, Error, ParamError), -1, [], [])
  {
    if c.state == Running then Step(c, 0, [], [])
    else if !c.timer || !timerStartOk then Step(UpdateState(c, Error, ParamError), -1, [], [])
    else Step(UpdateState(c, Running, NoError), 0, [], [])
  }

  /** `CollectorStop`. */
  function Stop(c: Collector, timerStopOk: bool): (r: Step)
    requires Valid(c)
    ensures Valid(r.c) && r.notes == [] && r.probed == []
    ensures r.ret == 0 <==> c.timer && timerStopOk
    ensures r.ret == 0 ==> r.c == UpdateState(c, Idle, NoError)
    ensures r.ret != 0 ==> r.ret == -1 && r.c == UpdateState(c, Error, ParamError)
  {
    if !c.timer || !timerStopOk then Step(UpdateState(c, Error, ParamError), -1, [], [])
    else Step(UpdateState(c, Idle, NoError), 0, [], [])
  }

  /** `CollectorDeinit`: stop, delete the timer, free the caches, Idle. */
  function Deinit(c: Collector, timerStopOk: bool): (r: Step)
    requires Valid(c)
    ensures Valid(r.c) && r.ret == 0 && r.notes == []
    ensures r.c.state == Idle && r.c.error == NoError && !r.c.timer
    ensures forall i :: 0 <= i < SENSOR_TYPE_MAX ==> r.c.caches[i].Capacity() == 0
    ensures r.c.latest == c.latest
  {
    var stopped := Stop(c, timerStopOk).c;
    var none := Ring.Empty(0, BootSample);
    var freed := [none, none, none];
    Step(UpdateState(stopped.(timer := false, caches := freed), Idle, NoError), 0, [], [])
  }

  /** `CollectorTrigger`: a code at or above `SENSOR_TYPE_MAX` (which
      includes `SENSOR_TYPE_ALL`) latches Error/Param; otherwise one sensor
      is collected whatever the state, and a read failure returns -1 with
      the state untouched. */
  function Trigger(c: Collector, code: nat, p: Probe): (r: Step)
    requires Valid(c)
    ensures Valid(r.c)
    ensures code >= SENSOR_TYPE_MAX ==> r == Step(UpdateState(c, Error, ParamError), -1, [], [])
    ensures code < SENSOR_TYPE_MAX ==>
              && r.c.state == c.state && r.c.error == c.error
              && r.probed == [TypeOfCode(code).value]
              && (r.ret == 0 <==> ReadSensor(p, TypeOfCode(code).value).Some?)
  {
    if code >= SENSOR_TYPE_MAX then Step(UpdateState(c, Error, ParamError), -1, [], [])
    else
      var s := CollectData(c, TypeOfCode(code).value, p);
      if s.ret != 0 then s.(ret := -1) else s
  }

  /** `CollectorGetLatestData`: fails on an out-of-range code or a missing
      output buffer (`hasOutput` false); otherwise copies the slot, which is
      a sample of that sensor or, before its first collection, the boot
      sample. */
  function GetLatest(c: Collector, code: nat, hasOutput: bool): (r: Option<SensorSample>)
    requires Valid(c)
    ensures r.Some? <==> code < SENSOR_TYPE_MAX && hasOutput
    ensures r.Some? ==> KindOf(r.value.reading) == TypeOfCode(code).value || r.value == BootSample
  {
    if code >= SENSOR_TYPE_MAX || !hasOutput then None
    else
      assert code == Code(TypeOfCode(code).value);
      Some(c.latest[code])
  }

  /** `CollectorRegisterCallback`: the last registration wins. */
  function RegisterCallback(c: Collector, cb: Option<nat>): (r: Collector)
    ensures r.callback == cb
  {
    c.(callback := cb)
  }

  // -----------------------------------------------------------------------
  // Properties

  /** Once a tick has failed, every later tick is a no-op until a Start. */
  lemma FailedTickLatches(c: Collector, p: Probe, q: Probe)
    requires Valid(c) && c.state == Running
    requires p.dht11.None? || p.mq2.None? || p.bh1750.None?
    ensures Tick(c, p).ret == -1
    ensures Tick(c, p).c.state == Error && Tick(c, p).c.error == SensorError
    ensures Tick(Tick(c, p).c, q) == Step(Tick(c, p).c, 0, [], [])
  {
    assert PassFails(SensorOrder, p) by {
      PassFailsIff(SensorOrder, p);
      if p.dht11.None? {
        assert ReadSensor(p, SensorOrder[0]).None?;
      } else if p.mq2.None? {
        assert ReadSensor(p, SensorOrder[1]).None?;
      } else {
        assert ReadSensor(p, SensorOrder[2]).None?;
      }
    }
  }

  /** A successful collection moves exactly that sensor's cache and latest
      slot, and the sample reaches the observer once. */
  lemma TriggerUpdatesOnlyItsType(c: Collector, code: nat, p: Probe)
    requires Valid(c) && code < SENSOR_TYPE_MAX
    requires c.caches[code].Capacity() > 0
    requires ReadSensor(p, TypeOfCode(code).value).Some?
    ensures var s := ReadSensor(p, TypeOfCode(code).value).value;
      var r := Trigger(c, code, p);
      && r.ret == 0 && r.c.latest[code] == s
      && GetLatest(r.c, code, true) == Some(s)
      && r.notes == Notify(c.callback, s)
      && forall j :: 0 <= j < SENSOR_TYPE_MAX && j != code ==>
           r.c.caches[j] == c.caches[j] && r.c.latest[j] == c.latest[j]
  {
  }

  /** The "all sensors" code is rejected like any other out-of-range code. */
  lemma TriggerAllRejected(c: Collector, p: Probe)
    requires Valid(c)
    ensures Trigger(c, SENSOR_TYPE_ALL, p).ret == -1
    ensures Trigger(c, SENSOR_TYPE_ALL, p).c.error == ParamError
    ensures Trigger(c, SENSOR_TYPE_ALL, p).probed == []
  {
  }

  /** Until a sample has been cached, every latest slot reads as the
      zero-filled record, tagged DHT11 whichever sensor was asked for. */
  lemma LatestZeroAtBoot(code: nat)
    requires code < SENSOR_TYPE_MAX
    ensures GetLatest(Boot(), code, true) == Some(SensorSample(Dht11Reading(0.0, 0.0), 0))
    ensures KindOf(GetLatest(Boot(), code, true).value.reading) == Dht11
  {
  }

  /** The cache of a sensor retains the last `cacheSize` of its samples:
      a triggered collection extends the history the ring stands for. */
  lemma TriggerKeepsHistory(c: Collector, code: nat, p: Probe, history: seq<SensorSample>)
    requires Valid(c) && code < SENSOR_TYPE_MAX
    requires Ring.Holds(c.caches[code], history)
    requires ReadSensor(p, TypeOfCode(code).value).Some?
    ensures Ring.Holds(Trigger(c, code, p).c.caches[code],
                       history + [ReadSensor(p, TypeOfCode(code).value).value])
  {
    var s := ReadSensor(p, TypeOfCode(code).value).value;
    Ring.PushHolds(c.caches[code], history, s);
  }

  /** Cache size 2, three DHT11 triggers: the cache keeps the last two
      samples in order and the latest slot holds the third. */
  lemma CacheSizeTwoExample(c0: Collector, a: Probe, b: Probe, d: Probe)
    requires Valid(c0) && c0.caches[0].Capacity() == 2 && Ring.Content(c0.caches[0]) == []
    requires a.dht11 == Some((20.0, 50.0)) && b.dht11 == Some((21.0, 49.0))
    requires d.dht11 == Some((22.0, 48.0))
    ensures var c3 := Trigger(Trigger(Trigger(c0, 0, a).c, 0, b).c, 0, d).c;
      && Ring.Content(c3.caches[0]) == [SensorSample(Dht11Reading(21.0, 49.0), b.tick),
                                        SensorSample(Dht11Reading(22.0, 48.0), d.tick)]
      && c3.latest[0] == SensorSample(Dht11Reading(22.0, 48.0), d.tick)
  {
    var sa := SensorSample(Dht11Reading(20.0, 50.0), a.tick);
    var sb := SensorSample(Dht11Reading(21.0, 49.0), b.tick);
    var sd := SensorSample(Dht11Reading(22.0, 48.0), d.tick);
    var c1 := Trigger(c0, 0, a).c;
    var c2 := Trigger(c1, 0, b).c;
    assert Ring.Holds(c0.caches[0], []);
    TriggerKeepsHistory(c0, 0, a, []);
    TriggerKeepsHistory(c1, 0, b, [sa]);
    TriggerKeepsHistory(c2, 0, d, [sa, sb]);
    assert Ring.Tail([sa, sb, sd], 2) == [sb, sd];
  }
}
