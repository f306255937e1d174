/** The DHT11 single-wire protocol: level waits bounded by a poll count,
    MSB-first bit assembly, the 5-byte frame with its checksum, and the
    status each stage propagates. The data line is a function from the
    index of a read to the level that read returns, so the i-th call of
    `gpio_read_input` sees `line(i)`; the microsecond delays between reads
    are not modelled. */
module Dht11 {
  import opened Common

  /** A level wait gives up after this many polls that still see the level. */
  const DHT11_TIMEOUT_MS: nat := 1000

  const FRAME_LENGTH: nat := 5

  /** `sensor_status_t`. */
  datatype Status = SensorOk | ErrorTimeout | ErrorChecksum | ErrorGpio | ErrorData

  type Line = nat -> nat

  /** A step of the protocol either completes, yielding a value and the
      index of the next read, or fails with a status. */
  datatype Outcome<T> = Done(value: T, next: nat) | Failed(status: Status)

  // -----------------------------------------------------------------------
  // Level waits

  /** `while (gpio_read_input() == level) { if (++timeout > 1000) ...; }`
      entered with `polls` already counted, reading from index `pos`. On
      success `next` is the index after the read that saw another level. */
  function WaitWhile(line: Line, pos: nat, level: nat, polls: nat): (r: Outcome<()>)
    requires polls <= DHT11_TIMEOUT_MS
    ensures r.Failed? ==> r.status == ErrorTimeout
    ensures r.Done? ==> pos < r.next <= pos + DHT11_TIMEOUT_MS - polls + 1
    decreases DHT11_TIMEOUT_MS - polls
  {
    if line(pos) != level then Done((), pos + 1)
    else if polls + 1 > DHT11_TIMEOUT_MS then Failed(ErrorTimeout)
    else WaitWhile(line, pos + 1, level, polls + 1)
  }

  /** Every read in [from, to) sees `level`. */
  ghost predicate Steady(line: Line, from: nat, to: nat, level: nat) {
    forall j :: from <= j < to ==> line(j) == level
  }

  /** What a wait means: it times out exactly when all of its remaining
      1001 - polls reads see the level, and otherwise it stops just after
      the first read that sees another level. */
  lemma {:induction false} WaitWhileMeaning(line: Line, pos: nat, level: nat, polls: nat)
    requires polls <= DHT11_TIMEOUT_MS
    ensures WaitWhile(line, pos, level, polls).Failed? <==>
              Steady(line, pos, pos + DHT11_TIMEOUT_MS - polls + 1, level)
    ensures WaitWhile(line, pos, level, polls).Done? ==>
              var next := WaitWhile(line, pos, level, polls).next;
              Steady(line, pos, next - 1, level) && line(next - 1) != level
    decreases DHT11_TIMEOUT_MS - polls
  {
    if line(pos) == level && polls + 1 <= DHT11_TIMEOUT_MS {
      WaitWhileMeaning(line, pos + 1, level, polls + 1);
    }
  }

  /** `dht11_reset` after the start signal: the sensor pulls the line low,
      then high, then low again; each phase is a bounded wait. */
  function Reset(line: Line, pos: nat): (r: Outcome<()>)
    ensures r.Failed? ==> r.status == ErrorTimeout
    ensures r.Done? ==> r.next > pos
  {
    match WaitWhile(line, pos, 1, 0)
    case Failed(s) => Failed(s)
    case Done(_, p1) =>
      match WaitWhile(line, p1, 0, 0)
      case Failed(s) => Failed(s)
      case Done(_, p2) => WaitWhile(line, p2, 1, 0)
  }

  // -----------------------------------------------------------------------
  // Bits and bytes

  /** One bit: wait out the low level, sample the line (any non-zero level
      is a 1), then wait out the high level. */
  function ReadBit(line: Line, pos: nat): (r: Outcome<bool>)
    ensures r.Failed? ==> r.status == ErrorTimeout
    ensures r.Done? ==> r.next > pos
  {
    match WaitWhile(line, pos, 0, 0)
    case Failed(s) => Failed(s)
    case Done(_, p) =>
      var bit := line(p) != 0;
      match WaitWhile(line, p + 1, 1, 0)
      case Failed(s) => Failed(s)
      case Done(_, q) => Done(bit, q)
  }

  /** The first `n` bits of a byte, in the order they arrive. */
  function ReadBits(line: Line, pos: nat, n: nat): (r: Outcome<seq<bool>>)
    ensures r.Done? ==> |r.value| == n
    ensures r.Failed? ==> r.status == ErrorTimeout
  {
    if n == 0 then Done([], pos)
    else
      match ReadBits(line, pos, n - 1)
      case Failed(s) => Failed(s)
      case Done(bits, p) =>
        match ReadBit(line, p)
        case Failed(s) => Failed(s)
        case Done(b, q) => Done(bits + [b], q)
  }

  /** A failure while reading the first `n` bits fails every longer read
      with the same status. */
  lemma {:induction false} ReadBitsFailurePersists(line: Line, pos: nat, n: nat, m: nat)
    requires n <= m
    requires ReadBits(line, pos, n).Failed?
    ensures ReadBits(line, pos, m) == ReadBits(line, pos, n)
    decreases m - n
  {
    if n < m {
      ReadBitsFailurePersists(line, pos, n, m - 1);
      assert ReadBits(line, pos, m) == ReadBits(line, pos, m - 1);
    }
  }

  lemma ReadBitsStep(line: Line, pos: nat, n: nat, bits: seq<bool>, p: nat)
    requires ReadBits(line, pos, n) == Done(bits, p)
    ensures ReadBit(line, p).Done? ==>
              ReadBits(line, pos, n + 1) == Done(bits + [ReadBit(line, p).value], ReadBit(line, p).next)
    ensures ReadBit(line, p).Failed? ==> ReadBits(line, pos, n + 1).Failed?
  {
  }

  lemma ReadBitsExtend(line: Line, pos: nat, n: nat, bits: seq<bool>, p: nat, b: bool, q: nat)
    requires ReadBits(line, pos, n) == Done(bits, p)
    requires ReadBit(line, p) == Done(b, q)
    ensures ReadBits(line, pos, n + 1) == Done(bits + [b], q)
  {
  }

  function Pow2(n: nat): (r: nat)
    ensures r >= 1
  {
    if n == 0 then 1 else 2 * Pow2(n - 1)
  }

  lemma {:induction false} Pow2Monotone(i: nat, n: nat)
    requires i <= n
    ensures Pow2(i) <= Pow2(n)
    decreases n
  {
    if i < n {
      Pow2Monotone(i, n - 1);
    }
  }

  lemma ByteFits(x: nat)
    requires x < 256
    ensures x % 256 == x
  {
  }

  /** `byte = (byte << 1) | bit` folded over the bits: the first bit ends
      up most significant. */
  function Assemble(bits: seq<bool>): (r: nat)
    ensures r < Pow2(|bits|)
  {
    if bits == [] then 0
    else 2 * Assemble(bits[..|bits| - 1]) + (if bits[|bits| - 1] then 1 else 0)
  }

  lemma AssembleAppend(bits: seq<bool>, b: bool)
    ensures Assemble(bits + [b]) == 2 * Assemble(bits) + (if b then 1 else 0)
  {
    assert (bits + [b])[..|bits|] == bits;
  }

  /** The positional reading of a bit string: bit i weighs 2^(n-1-i). */
  function Weighted(bits: seq<bool>): nat {
    if bits == [] then 0
    else (if bits[0] then Pow2(|bits| - 1) else 0) + Weighted(bits[1..])
  }

  lemma {:induction false} WeightedAppend(bits: seq<bool>, b: bool)
    ensures Weighted(bits + [b]) == 2 * Weighted(bits) + (if b then 1 else 0)
  {
    if bits != [] {
      assert (bits + [b])[1..] == bits[1..] + [b];
      WeightedAppend(bits[1..], b);
    }
  }

  /** MSB-first assembly: the assembled byte is the sum of bit_i * 2^(n-1-i). */
  lemma {:induction false} AssembleIsWeighted(bits: seq<bool>)
    ensures Assemble(bits) == Weighted(bits)
  {
    if bits != [] {
      var init := bits[..|bits| - 1];
      AssembleIsWeighted(init);
      assert init + [bits[|bits| - 1]] == bits;
      WeightedAppend(init, bits[|bits| - 1]);
    }
  }

  /** The `n` bits a sensor sends for `v`, most significant first. */
  function BitsOf(v: nat, n: nat): (r: seq<bool>)
    ensures |r| == n
  {
    if n == 0 then [] else BitsOf(v / 2, n - 1) + [v % 2 == 1]
  }

  /** Assembly inverts the sensor's encoding for every value that fits. */
  lemma {:induction false} AssembleBitsOf(v: nat, n: nat)
    requires v < Pow2(n)
    ensures Assemble(BitsOf(v, n)) == v
  {
    if n > 0 {
      var bits := BitsOf(v, n);
      assert bits[..n - 1] == BitsOf(v / 2, n - 1);
      AssembleBitsOf(v / 2, n - 1);
    }
  }

  /** ... and the encoding inverts assembly: no two bit strings of the same
      length assemble to the same byte. */
  lemma {:induction false} BitsOfAssemble(bits: seq<bool>)
    ensures BitsOf(Assemble(bits), |bits|) == bits
  {
    if bits != [] {
      var init := bits[..|bits| - 1];
      BitsOfAssemble(init);
      assert Assemble(bits) / 2 == Assemble(init);
    }
  }

  /** `dht11_read_byte` as a function: eight bits assembled, or the status
      of the first failing wait (no byte is produced then). */
  function ReadByteSpec(line: Line, pos: nat): Outcome<nat> {
    match ReadBits(line, pos, 8)
    case Failed(s) => Failed(s)
    case Done(bits, p) => Done(Assemble(bits), p)
  }

  /** `dht11_read_byte`: the shift-and-or loop over a `uint8_t`. The shift
      is written with its 8-bit truncation; the invariant shows it never
      drops a bit. */
  method ReadByte(line: Line, pos: nat) returns (r: Outcome<nat>)
    ensures r == ReadByteSpec(line, pos)
    ensures r.Done? ==> r.value < 256
    ensures r.Failed? ==> r.status == ErrorTimeout
  {
    var byte: nat := 0;
    var p := pos;
    ghost var bits: seq<bool> := [];
    var i := 0;
    while i < 8
      invariant 0 <= i <= 8
      invariant ReadBits(line, pos, i) == Done(bits, p)
      invariant byte == Assemble(bits) && |bits| == i
    {
      var bit := ReadBit(line, p);
      ReadBitsStep(line, pos, i, bits, p);
      if bit.Failed? {
        ReadBitsFailurePersists(line, pos, i + 1, 8);
        return Failed(bit.status);
      }
      assert (byte * 2) % 256 == byte * 2 by {
        Pow2Monotone(i, 7);
        assert Pow2(7) == 128;
        ByteFits(byte * 2);
      }
      byte := (byte * 2) % 256;
      if bit.value {
        byte := byte + 1;
      }
      AssembleAppend(bits, bit.value);
      bits := bits + [bit.value];
      p := bit.next;
      i := i + 1;
    }
    return Done(byte, p);
  }

  /** The five frame bytes in order, stopping at the first failing byte. */
  function ReadBytes(line: Line, pos: nat, n: nat): (r: Outcome<seq<nat>>)
    ensures r.Done? ==> |r.value| == n && forall k :: 0 <= k < n ==> r.value[k] < 256
    ensures r.Failed? ==> r.status == ErrorTimeout
  {
    if n == 0 then Done([], pos)
    else
      match ReadBytes(line, pos, n - 1)
      case Failed(s) => Failed(s)
      case Done(bytes, p) =>
        match ReadByteSpec(line, p)
        case Failed(s) => Failed(s)
        case Done(b, q) =>
          assert Assemble(ReadBits(line, p, 8).value) < Pow2(8);
          Done(bytes + [b], q)
  }

  // -----------------------------------------------------------------------
  // Frame

  /** `dht11_check_sum`: a five-byte frame whose last byte equals the plain
      integer sum of the first four. */
  function CheckSum(data: seq<nat>): (ok: bool)
    ensures ok ==> |data| == FRAME_LENGTH
    ensures |data| == FRAME_LENGTH ==> (ok <==> data[0] + data[1] + data[2] + data[3] == data[4])
  {
    |data| == FRAME_LENGTH && data[0] + data[1] + data[2] + data[3] == data[4]
  }

  /** The sum is not reduced modulo 256, so a frame whose first four bytes
      add up past 255 can never pass, whatever its check byte. */
  lemma LargeSumRejected(data: seq<nat>)
    requires |data| == FRAME_LENGTH && data[4] < 256
    requires data[0] + data[1] + data[2] + data[3] > 255
    ensures !CheckSum(data)
  {
  }

  /** A frame whose check byte is the 8-bit truncated sum (as a sensor
      computes it) is accepted only when no truncation took place. */
  lemma TruncatedSumExample()
    ensures !CheckSum([200, 0, 60, 0, 4])
    ensures CheckSum([45, 0, 23, 5, 73])
  {
  }

  /** Humidity and temperature in tenths: integral byte times ten plus the
      decimal byte. */
  datatype Measurement = Measurement(humidityTenths: nat, temperatureTenths: nat)

  /** `humidity = raw[0] + raw[1] * 0.1`, `temperature = raw[2] + raw[3] * 0.1`,
      kept exact by counting tenths. */
  function MeasurementOf(raw: seq<nat>): (m: Measurement)
    requires |raw| == FRAME_LENGTH
    ensures m.humidityTenths == 10 * raw[0] + raw[1]
    ensures m.temperatureTenths == 10 * raw[2] + raw[3]
  {
    Measurement(raw[0] * 10 + raw[1], raw[2] * 10 + raw[3])
  }

  /** `dht11_read`. `hasOutput` is false for a NULL output pointer; the line
      is read from index 0, just after the start signal. The measurement is
      present exactly when the status is OK. */
  function Read(line: Line, hasOutput: bool): (r: (Status, Option<Measurement>))
    ensures r.1.Some? <==> r.0 == SensorOk
    ensures !hasOutput ==> r.0 == ErrorData
    ensures hasOutput && Reset(line, 0).Failed? ==> r.0 == ErrorTimeout
    ensures r.0 != SensorOk ==> r.0 in {ErrorTimeout, ErrorChecksum, ErrorData}
  {
    if !hasOutput then (ErrorData, None)
    else
      match Reset(line, 0)
      case Failed(s) => (s, None)
      case Done(_, p) =>
        match ReadBytes(line, p, FRAME_LENGTH)
        case Failed(s) => (s, None)
        case Done(raw, _) =>
          if !CheckSum(raw) then (ErrorChecksum, None)
          else (SensorOk, Some(MeasurementOf(raw)))
  }

  // -----------------------------------------------------------------------
  // A sensor driving the line

  /** The index of the first read of bit k of the train. */
  function BitStart(k: nat): nat {
    3 + 3 * k
  }

  /** The sensor's answer to the start signal, as the three reset waits
      see it: low, high, then the low that opens the first bit. */
  ghost predicate Answers(line: Line) {
    line(0) == 0 && line(1) == 1 && line(2) == 0
  }

  /** Bit k takes three reads: high (the low phase is over), the value
      sampled mid-pulse (a long high pulse is still high: a 1), and low
      (the high phase is over). */
  ghost predicate SendsBit(line: Line, bits: seq<bool>, k: nat)
    requires k < |bits|
  {
    && line(BitStart(k)) == 1
    && line(BitStart(k) + 1) == (if bits[k] then 1 else 0)
    && line(BitStart(k) + 2) == 0
  }

  ghost predicate Sends(line: Line, bits: seq<bool>) {
    forall k :: 0 <= k < |bits| ==> SendsBit(line, bits, k)
  }

  /** From read `from` on, the line idles high. */
  ghost predicate IdleFrom(line: Line, from: nat) {
    forall j :: from <= j ==> line(j) == 1
  }

  /** A DHT11 that answers the start signal, sends `bits` and goes quiet. */
  ghost predicate Transmits(line: Line, bits: seq<bool>) {
    Answers(line) && Sends(line, bits) && IdleFrom(line, BitStart(|bits|))
  }

  /** The bits of a frame, each byte most significant bit first. */
  function FrameBits(frame: seq<nat>): (r: seq<bool>)
    ensures |r| == 8 * |frame|
  {
    if frame == [] then [] else FrameBits(frame[..|frame| - 1]) + BitsOf(frame[|frame| - 1], 8)
  }

  lemma {:induction false} FrameBitsByte(frame: seq<nat>, k: nat)
    requires k < |frame|
    ensures FrameBits(frame)[8 * k..8 * k + 8] == BitsOf(frame[k], 8)
    decreases |frame|
  {
    var init := frame[..|frame| - 1];
    if k < |init| {
      FrameBitsByte(init, k);
      assert init[k] == frame[k];
    }
  }

  // Such lines exist: the level of every read, for any bit train.

  function Level(bits: seq<bool>, i: nat): nat {
    if i < 3 then (if i == 1 then 1 else 0) else BitLevel(bits, i - 3)
  }

  /** The level of the j-th read into the bit train. */
  function BitLevel(bits: seq<bool>, j: nat): nat {
    if bits == [] then 1
    else if j >= 3 then BitLevel(bits[1..], j - 3)
    else if j == 0 then 1
    else if j == 1 then (if bits[0] then 1 else 0)
    else 0
  }

  lemma {:induction false} BitLevelAt(bits: seq<bool>, k: nat)
    requires k < |bits|
    ensures BitLevel(bits, 3 * k) == 1
    ensures BitLevel(bits, 3 * k + 1) == (if bits[k] then 1 else 0)
    ensures BitLevel(bits, 3 * k + 2) == 0
  {
    if k > 0 {
      BitLevelAt(bits[1..], k - 1);
      assert BitLevel(bits, 3 * k) == BitLevel(bits[1..], 3 * (k - 1));
      assert BitLevel(bits, 3 * k + 1) == BitLevel(bits[1..], 3 * (k - 1) + 1);
      assert BitLevel(bits, 3 * k + 2) == BitLevel(bits[1..], 3 * (k - 1) + 2);
    }
  }

  lemma {:induction false} BitLevelIdle(bits: seq<bool>, j: nat)
    requires j >= 3 * |bits|
    ensures BitLevel(bits, j) == 1
  {
    if bits != [] {
      BitLevelIdle(bits[1..], j - 3);
    }
  }

  function SensorLine(bits: seq<bool>): Line {
    i => Level(bits, i)
  }

  /** Every bit train can be transmitted. */
  lemma SensorLineTransmits(bits: seq<bool>)
    ensures Transmits(SensorLine(bits), bits)
  {
    var line := SensorLine(bits);
    forall k | 0 <= k < |bits|
      ensures SendsBit(line, bits, k)
    {
      BitLevelAt(bits, k);
    }
    forall j | BitStart(|bits|) <= j
      ensures line(j) == 1
    {
      BitLevelIdle(bits, j - 3);
    }
  }

  // Decoding what the sensor sends

  lemma ResetOnAnswer(line: Line)
    requires Answers(line)
    ensures Reset(line, 0) == Done((), BitStart(0))
  {
  }

  lemma BitOnLine(line: Line, bits: seq<bool>, k: nat)
    requires k < |bits| && SendsBit(line, bits, k)
    ensures ReadBit(line, BitStart(k)) == Done(bits[k], BitStart(k + 1))
  {
    assert WaitWhile(line, BitStart(k), 0, 0) == Done((), BitStart(k) + 1);
    assert WaitWhile(line, BitStart(k) + 2, 1, 0) == Done((), BitStart(k + 1));
  }

  /** Bits sent three reads apart are read back in order. */
  lemma {:induction false} BitsOnLine(line: Line, bits: seq<bool>, s: nat, n: nat)
    requires s + n <= |bits| && Sends(line, bits)
    ensures ReadBits(line, BitStart(s), n) == Done(bits[s..s + n], BitStart(s + n))
  {
    if n == 0 {
      assert bits[s..s] == [];
    } else {
      var k := s + n - 1;
      assert ReadBits(line, BitStart(s), k - s) == Done(bits[s..k], BitStart(k)) by {
        BitsOnLine(line, bits, s, n - 1);
      }
      assert SendsBit(line, bits, k);
      BitsSliceExtend(line, bits, s, k);
    }
  }

  /** The bit the sensor sends next extends the decoded slice by one. */
  lemma BitsSliceExtend(line: Line, bits: seq<bool>, s: nat, k: nat)
    requires s <= k < |bits| && SendsBit(line, bits, k)
    requires ReadBits(line, BitStart(s), k - s) == Done(bits[s..k], BitStart(k))
    ensures ReadBits(line, BitStart(s), k - s + 1) == Done(bits[s..k + 1], BitStart(k + 1))
  {
    BitOnLine(line, bits, k);
    assert bits[s..k] + [bits[k]] == bits[s..k + 1];
    ReadBitsExtend(line, BitStart(s), k - s, bits[s..k], BitStart(k), bits[k], BitStart(k + 1));
  }

  lemma ReadBytesStep(line: Line, pos: nat, n: nat, bytes: seq<nat>, p: nat)
    requires ReadBytes(line, pos, n) == Done(bytes, p)
    ensures ReadByteSpec(line, p).Done? ==>
              ReadBytes(line, pos, n + 1) == Done(bytes + [ReadByteSpec(line, p).value], ReadByteSpec(line, p).next)
    ensures ReadByteSpec(line, p).Failed? ==> ReadBytes(line, pos, n + 1).Failed?
  {
  }

  lemma ReadBytesExtend(line: Line, pos: nat, n: nat, bytes: seq<nat>, p: nat, b: nat, q: nat)
    requires n > 0 && ReadBytes(line, pos, n - 1) == Done(bytes, p)
    requires ReadByteSpec(line, p) == Done(b, q)
    ensures ReadBytes(line, pos, n) == Done(bytes + [b], q)
  {
  }

  lemma {:induction false} ReadBytesFailurePersists(line: Line, pos: nat, n: nat, m: nat)
    requires n <= m
    requires ReadBytes(line, pos, n).Failed?
    ensures ReadBytes(line, pos, m).Failed?
    decreases m - n
  {
    if n < m {
      ReadBytesFailurePersists(line, pos, n, m - 1);
      assert ReadBytes(line, pos, m) == Failed(ReadBytes(line, pos, m - 1).status);
    }
  }

  /** The byte the sensor sends in slot `k` of a frame is read back. */
  lemma ByteOnLine(line: Line, frame: seq<nat>, k: nat)
    requires k < |frame| && frame[k] < 256
    requires Sends(line, FrameBits(frame))
    ensures ReadByteSpec(line, BitStart(8 * k)) == Done(frame[k], BitStart(8 * (k + 1)))
  {
    var bits := FrameBits(frame);
    var s := 8 * k;
    assert s + 8 == 8 * (k + 1) <= 8 * |frame| == |bits|;
    assert ReadBits(line, BitStart(s), 8) == Done(BitsOf(frame[k], 8), BitStart(8 * (k + 1))) by {
      BitsOnLine(line, bits, s, 8);
      FrameBitsByte(frame, k);
    }
    assert Assemble(BitsOf(frame[k], 8)) == frame[k] by {
      assert Pow2(8) == 256;
      AssembleBitsOf(frame[k], 8);
    }
  }

  /** Byte by byte, the decoder recovers the frame the sensor encodes. */
  lemma {:induction false} BytesOnLine(line: Line, frame: seq<nat>, n: nat)
    requires n <= |frame|
    requires forall k :: 0 <= k < |frame| ==> frame[k] < 256
    requires Sends(line, FrameBits(frame))
    ensures ReadBytes(line, BitStart(0), n) == Done(frame[..n], BitStart(8 * n))
  {
    if n == 0 {
      assert frame[..0] == [];
    } else {
      var prefix := frame[..n - 1];
      assert ReadBytes(line, BitStart(0), n - 1) == Done(prefix, BitStart(8 * (n - 1))) by {
        BytesOnLine(line, frame, n - 1);
      }
      assert ReadByteSpec(line, BitStart(8 * (n - 1))) == Done(frame[n - 1], BitStart(8 * n)) by {
        ByteOnLine(line, frame, n - 1);
      }
      assert prefix + [frame[n - 1]] == frame[..n];
      ReadBytesExtend(line, BitStart(0), n, prefix, BitStart(8 * (n - 1)), frame[n - 1], BitStart(8 * n));
    }
  }

  /** Once all five bytes arrive, the result depends only on them: the
      measurement when the checksum holds, CHECKSUM with no output when it
      does not. */
  lemma ReadCompleteFrame(line: Line)
    ensures Reset(line, 0).Done? && ReadBytes(line, Reset(line, 0).next, FRAME_LENGTH).Done? ==>
              var raw := ReadBytes(line, Reset(line, 0).next, FRAME_LENGTH).value;
              Read(line, true) ==
                if CheckSum(raw) then (SensorOk, Some(MeasurementOf(raw))) else (ErrorChecksum, None)
  {
  }

  /** The first byte that fails aborts the read with its status and no
      output. */
  lemma ReadFailedByte(line: Line, p: nat)
    requires Reset(line, 0) == Done((), p)
    requires ReadBytes(line, p, FRAME_LENGTH).Failed?
    ensures Read(line, true) == (ReadBytes(line, p, FRAME_LENGTH).status, None)
  {
  }

  /** Decoding round trip: whatever five bytes a sensor sends, a read
      returns exactly them (in tenths) when the check byte matches and a
      checksum error otherwise. */
  lemma FrameRoundTrip(line: Line, frame: seq<nat>)
    requires |frame| == FRAME_LENGTH
    requires forall k :: 0 <= k < |frame| ==> frame[k] < 256
    requires Answers(line) && Sends(line, FrameBits(frame))
    ensures Read(line, true) ==
              if CheckSum(frame) then (SensorOk, Some(MeasurementOf(frame))) else (ErrorChecksum, None)
  {
    ResetOnAnswer(line);
    BytesOnLine(line, frame, FRAME_LENGTH);
    assert frame[..FRAME_LENGTH] == frame;
    ReadCompleteFrame(line);
  }

  /** On an idle line a bit's high phase never ends. */
  lemma IdleBitTimesOut(line: Line, from: nat)
    requires IdleFrom(line, from)
    ensures ReadBit(line, from).Failed?
  {
    assert WaitWhile(line, from, 0, 0) == Done((), from + 1);
    assert WaitWhile(line, from + 2, 1, 0).Failed? by {
      WaitWhileMeaning(line, from + 2, 1, 0);
      assert Steady(line, from + 2, from + 2 + DHT11_TIMEOUT_MS + 1, 1);
    }
  }

  /** A sensor that stops after fewer than five bytes leaves the line high,
      and the read then times out instead of decoding a partial frame. */
  lemma ShortFrameTimesOut(line: Line, frame: seq<nat>)
    requires |frame| < FRAME_LENGTH
    requires forall k :: 0 <= k < |frame| ==> frame[k] < 256
    requires Transmits(line, FrameBits(frame))
    ensures Read(line, true) == (ErrorTimeout, None)
  {
    var n := |frame|;
    var p := BitStart(8 * n);
    ResetOnAnswer(line);
    assert ReadBytes(line, BitStart(0), n) == Done(frame, p) by {
      BytesOnLine(line, frame, n);
      assert frame[..n] == frame;
    }
    assert ReadByteSpec(line, p).Failed? by {
      IdleBitTimesOut(line, p);
      ReadBitsStep(line, p, 0, [], p);
      ReadBitsFailurePersists(line, p, 1, 8);
    }
    assert ReadBytes(line, BitStart(0), FRAME_LENGTH).Failed? by {
      ReadBytesStep(line, BitStart(0), n, frame, p);
      ReadBytesFailurePersists(line, BitStart(0), n + 1, FRAME_LENGTH);
    }
    ReadFailedByte(line, BitStart(0));
  }

  /** A line stuck high never answers the start signal. */
  lemma StuckHighTimesOut()
    ensures Read(x => 1, true) == (ErrorTimeout, None)
  {
    var line: Line := x => 1;
    assert WaitWhile(line, 0, 1, 0).Failed? by {
      WaitWhileMeaning(line, 0, 1, 0);
    }
  }

  /** `dht11_init`: the two GPIO set-up calls, fail-fast, with their results
      as parameters. */
  function Init(gpioInitOk: bool, setDirOk: bool): (s: Status)
    ensures s == SensorOk <==> gpioInitOk && setDirOk
    ensures s != SensorOk ==> s == ErrorGpio
  {
    if !gpioInitOk then ErrorGpio
    else if !setDirOk then ErrorGpio
    else SensorOk
  }
}
