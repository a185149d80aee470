/**
 * The DHT11/DHT22 temperature and humidity driver. The sensor answers a
 * start signal with a pulse train; the driver counts how many polls each
 * level lasts, compares each high pulse with the average low pulse to read
 * 40 bits, and checks the fifth byte against the sum of the first four.
 *
 * The pin is represented by the length of each level, in polls: `pullup`
 * for the host's pull-up and `runs` for the 41 low/high pairs that follow.
 */
module Dht {
  import opened Wrappers

  const PulsesCnt: nat := 41
  const MaxCnt: nat := 320
  const DataBitCount: nat := 40
  const MaxAttempts: nat := 16

  datatype DhtType = Dht11 | Dht22

  datatype DhtError =
    | PullupByHostFailed
    | PulldownTimeout(pulse: nat)
    | PullupTimeout(pulse: nat)
    | ChecksumError
    /** `read` before `setup`. */
    | NotInitialized

  /** What `DHT.read` returns: the temperature first, then the humidity. */
  datatype Sample = Sample(temperature: real, humidity: real)

  /** The first level that lasts more than `MaxCnt` polls, from index `j` on, as the error it raises. */
  function RunTimeout(runs: seq<nat>, j: nat): (e: Option<DhtError>)
    requires j <= |runs|
    ensures e.None? <==> forall k :: j <= k < |runs| ==> runs[k] <= MaxCnt
    decreases |runs| - j
  {
    if j == |runs| then None
    else if runs[j] > MaxCnt then Some(if j % 2 == 0 then PulldownTimeout(j) else PullupTimeout(j - 1))
    else RunTimeout(runs, j + 1)
  }

  /** The counting loops' verdict on the whole pulse train. */
  function Timeout(pullup: nat, runs: seq<nat>): (e: Option<DhtError>)
    ensures e.None? <==> pullup <= MaxCnt && forall k :: 0 <= k < |runs| ==> runs[k] <= MaxCnt
  {
    if pullup > MaxCnt then Some(PullupByHostFailed) else RunTimeout(runs, 0)
  }

  /** The sum of the low pulses at indices 2, 4, ..., 2n. */
  function LowSum(runs: seq<nat>, n: nat): nat
    requires 2 * n < |runs|
  {
    if n == 0 then 0 else LowSum(runs, n - 1) + runs[2 * n]
  }

  /** The threshold: the average of the 40 low pulses at even indices 2 to 80. */
  function Threshold(runs: seq<nat>): real
    requires |runs| == 2 * PulsesCnt
  {
    LowSum(runs, DataBitCount) as real / DataBitCount as real
  }

  /** The bit a high pulse stands for: set when it outlasts the threshold. */
  function BitChar(high: nat, threshold: real): char
  {
    if high as real > threshold then '1' else '0'
  }

  /** The first `n` data bits: the high pulses at indices 3, 5, ... against the threshold. */
  function DataBits(runs: seq<nat>, n: nat): (bits: string)
    requires |runs| == 2 * PulsesCnt && n <= DataBitCount
    ensures |bits| == n
  {
    if n == 0 then "" else DataBits(runs, n - 1) + [BitChar(runs[3 + 2 * (n - 1)], Threshold(runs))]
  }

  /** Python's `int(s, 2)` on a string of '0' and '1'. */
  function BinaryValue(s: string): nat
  {
    if |s| == 0 then 0 else 2 * BinaryValue(s[..|s| - 1]) + (if s[|s| - 1] == '1' then 1 else 0)
  }

  /** Byte `k` of the 40 bits, most significant bit first. */
  function ByteAt(data: string, k: nat): nat
    requires |data| == DataBitCount && k < 5
  {
    BinaryValue(data[8 * k..8 * k + 8])
  }

  function Checksum(b0: nat, b1: nat, b2: nat, b3: nat): nat
  {
    (b0 + b1 + b2 + b3) % 0x100
  }

  /** DHT11 sends whole numbers in bytes 0 and 2; DHT22 tenths, with the temperature's sign in bit 16. */
  function SampleOf(dhtType: DhtType, data: string): Sample
    requires |data| == DataBitCount
  {
    match dhtType
    case Dht11 => Sample(ByteAt(data, 2) as real, ByteAt(data, 0) as real)
    case Dht22 =>
      Sample(BinaryValue(data[17..32]) as real * 0.2 * (0.5 - BinaryValue(data[16..17]) as real),
             BinaryValue(data[0..16]) as real * 0.1)
  }

  /** The outcome of one reading of a pulse train. */
  function Decode(dhtType: DhtType, pullup: nat, runs: seq<nat>): (r: Result<Sample, DhtError>)
    requires |runs| == 2 * PulsesCnt
  {
    var timeout := Timeout(pullup, runs);
    if timeout.Some? then Err(timeout.value)
    else Convert(dhtType, DataBits(runs, DataBitCount))
  }

  /** The 40 bits read: rejected when the fifth byte is not the checksum of the first four. */
  function Convert(dhtType: DhtType, data: string): Result<Sample, DhtError>
    requires |data| == DataBitCount
  {
    if ByteAt(data, 4) != Checksum(ByteAt(data, 0), ByteAt(data, 1), ByteAt(data, 2), ByteAt(data, 3)) then Err(ChecksumError)
    else Ok(SampleOf(dhtType, data))
  }

  /** One counting loop: poll while the level holds, failing once the count exceeds `MaxCnt`. */
  method CountLevel(run: nat) returns (count: nat, timedOut: bool)
    ensures timedOut <==> run > MaxCnt
    ensures !timedOut ==> count == run
  {
    count := 0;
    while count < run
      invariant count <= run && count <= MaxCnt
      decreases run - count
    {
      count := count + 1;
      if count > MaxCnt {
        return count, true;
      }
    }
    timedOut := false;
  }

  /** The pulse loop: count each low and high level into a fresh array, stopping at the first timeout. */
  method CountPulses(runs: seq<nat>) returns (pulseCnt: array<nat>, timeout: Option<DhtError>)
    requires |runs| == 2 * PulsesCnt
    ensures fresh(pulseCnt)
    ensures timeout == RunTimeout(runs, 0)
    ensures timeout.None? ==> pulseCnt[..] == runs
  {
    pulseCnt := new nat[2 * PulsesCnt](_ => 0);
    var pulse := 0;
    while pulse < 2 * PulsesCnt
      invariant 0 <= pulse <= 2 * PulsesCnt && pulse % 2 == 0
      invariant pulseCnt[..pulse] == runs[..pulse]
      invariant RunTimeout(runs, 0) == RunTimeout(runs, pulse)
      modifies pulseCnt
      decreases 2 * PulsesCnt - pulse
    {
      var low, lowTimedOut := CountLevel(runs[pulse]);
      if lowTimedOut {
        return pulseCnt, Some(PulldownTimeout(pulse));
      }
      pulseCnt[pulse] := low;
      var high, highTimedOut := CountLevel(runs[pulse + 1]);
      if highTimedOut {
        return pulseCnt, Some(PullupTimeout(pulse));
      }
      pulseCnt[pulse + 1] := high;
      assert pulseCnt[..pulse + 2] == pulseCnt[..pulse] + [low, high];
      assert runs[..pulse + 2] == runs[..pulse] + [runs[pulse], runs[pulse + 1]];
      pulse := pulse + 2;
    }
    assert pulseCnt[..] == pulseCnt[..2 * PulsesCnt];
    timeout := None;
  }

  /** The sum of the low pulses at indices 2 to 80. */
  method SumLowPulses(pulseCnt: array<nat>) returns (total: nat)
    requires pulseCnt.Length == 2 * PulsesCnt
    ensures total == LowSum(pulseCnt[..], DataBitCount)
  {
    total := 0;
    var pulse := 2;
    while pulse < 2 * PulsesCnt
      invariant 2 <= pulse <= 2 * PulsesCnt && pulse % 2 == 0
      invariant total == LowSum(pulseCnt[..], pulse / 2 - 1)
      decreases 2 * PulsesCnt - pulse
    {
      total := total + pulseCnt[pulse];
      pulse := pulse + 2;
    }
  }

  /** The bit string: a '1' for each high pulse at indices 3 to 81 above the average. */
  method CollectBits(pulseCnt: array<nat>, average: real) returns (data: string)
    requires pulseCnt.Length == 2 * PulsesCnt && average == Threshold(pulseCnt[..])
    ensures data == DataBits(pulseCnt[..], DataBitCount)
  {
    data := "";
    var pulse := 3;
    while pulse < 2 * PulsesCnt
      invariant 3 <= pulse <= 2 * PulsesCnt + 1 && pulse % 2 == 1
      invariant data == DataBits(pulseCnt[..], (pulse - 3) / 2)
      decreases 2 * PulsesCnt - pulse
    {
      if pulseCnt[pulse] as real > average {
        data := data + "1";
      } else {
        data := data + "0";
      }
      pulse := pulse + 2;
    }
  }

  /** `DHT.read` from the moment the pin is switched to input. */
  method ReadTrain(dhtType: DhtType, pullup: nat, runs: seq<nat>) returns (r: Result<Sample, DhtError>)
    requires |runs| == 2 * PulsesCnt
    ensures r == Decode(dhtType, pullup, runs)
  {
    var count, pullupTimedOut := CountLevel(pullup);
    if pullupTimedOut {
      return Err(PullupByHostFailed);
    }
    var pulseCnt, timeout := CountPulses(runs);
    if timeout.Some? {
      return Err(timeout.value);
    }
    var total := SumLowPulses(pulseCnt);
    var average := total as real / (PulsesCnt - 1) as real;
    var data := CollectBits(pulseCnt, average);

    assert pulseCnt[..] == runs;
    r := ConvertBits(dhtType, data);
  }

  /** The checksum test and the conversion at the end of `DHT.read`. */
  method ConvertBits(dhtType: DhtType, data: string) returns (r: Result<Sample, DhtError>)
    requires |data| == DataBitCount
    ensures r == Convert(dhtType, data)
  {
    var byte0 := ByteAt(data, 0);
    var byte1 := ByteAt(data, 1);
    var byte2 := ByteAt(data, 2);
    var byte3 := ByteAt(data, 3);
    var crcByte := ByteAt(data, 4);
    if crcByte != (byte0 + byte1 + byte2 + byte3) % 0x100 {
      return Err(ChecksumError);
    }
    var humidity, temperature;
    if dhtType == Dht11 {
      humidity := byte0 as real;
      temperature := byte2 as real;
    } else {
      humidity := BinaryValue(data[0..16]) as real * 0.1;
      temperature := BinaryValue(data[17..32]) as real * 0.2 * (0.5 - BinaryValue(data[16..17]) as real);
    }
    r := Ok(Sample(temperature, humidity));
  }

  /** Bit `i` is set exactly when the high pulse at index 3 + 2i outlasts the threshold. */
  lemma {:induction false} DataBitIff(runs: seq<nat>, n: nat, i: nat)
    requires |runs| == 2 * PulsesCnt && i < n <= DataBitCount
    ensures DataBits(runs, n)[i] == '1' <==> runs[3 + 2 * i] as real > Threshold(runs)
  {
    if i < n - 1 {
      DataBitIff(runs, n - 1, i);
    }
  }

  /** A train whose every level lasts at most `MaxCnt` polls and whose checksum byte is right is accepted. */
  lemma DecodeOkIff(dhtType: DhtType, pullup: nat, runs: seq<nat>)
    requires |runs| == 2 * PulsesCnt
    ensures Decode(dhtType, pullup, runs).Ok? <==>
      pullup <= MaxCnt && (forall k :: 0 <= k < |runs| ==> runs[k] <= MaxCnt) &&
      var data := DataBits(runs, DataBitCount);
      ByteAt(data, 4) == Checksum(ByteAt(data, 0), ByteAt(data, 1), ByteAt(data, 2), ByteAt(data, 3))
  {
  }

  /** The first level that times out names the error; the host's pull-up is checked first. */
  lemma {:induction false} FirstTimeoutReported(pullup: nat, runs: seq<nat>, j: nat)
    requires |runs| == 2 * PulsesCnt && pullup <= MaxCnt
    requires j < |runs| && runs[j] > MaxCnt
    requires forall k :: 0 <= k < j ==> runs[k] <= MaxCnt
    ensures Timeout(pullup, runs) == Some(if j % 2 == 0 then PulldownTimeout(j) else PullupTimeout(j - 1))
  {
    FirstTimeoutFrom(runs, 0, j);
  }

  lemma {:induction false} FirstTimeoutFrom(runs: seq<nat>, from: nat, j: nat)
    requires from <= j < |runs| && runs[j] > MaxCnt
    requires forall k :: from <= k < j ==> runs[k] <= MaxCnt
    ensures RunTimeout(runs, from) == Some(if j % 2 == 0 then PulldownTimeout(j) else PullupTimeout(j - 1))
    decreases j - from
  {
    if from < j {
      FirstTimeoutFrom(runs, from + 1, j);
    }
  }

  /** DHT22 temperatures are sign and magnitude: tenths of a degree, negative when bit 16 is set. */
  lemma Dht22Temperature(data: string)
    requires |data| == DataBitCount && (data[16] == '0' || data[16] == '1')
    ensures var magnitude := BinaryValue(data[17..32]) as real / 10.0;
      SampleOf(Dht22, data).temperature == (if data[16] == '1' then -magnitude else magnitude)
  {
    var b := data[16..17];
    assert b[..0] == "" && b[0] == data[16];
    assert |b| == 1 && b[|b| - 1] == data[16] && b[..|b| - 1] == "";
    var sign := BinaryValue(b);
    assert sign == 2 * BinaryValue("") + (if data[16] == '1' then 1 else 0);
    var v := BinaryValue(data[17..32]) as real;
    if sign == 1 {
      assert v * 0.2 * (0.5 - 1.0) == -(v / 10.0);
    } else {
      assert v * 0.2 * (0.5 - 0.0) == v / 10.0;
    }
  }

  /// Encoding: the pulse train a sensor sends for given bits.

  /** The `width` low bits of `b`, most significant first. */
  function BitsOf(b: nat, width: nat): (s: string)
    ensures |s| == width
  {
    if width == 0 then "" else BitsOf(b / 2, width - 1) + [if b % 2 == 1 then '1' else '0']
  }

  function Pow2(n: nat): nat
  {
    if n == 0 then 1 else 2 * Pow2(n - 1)
  }

  lemma {:induction false} BitsOfValue(b: nat, width: nat)
    requires b < Pow2(width)
    ensures BinaryValue(BitsOf(b, width)) == b
  {
    if width > 0 {
      var s := BitsOf(b, width);
      assert s[..|s| - 1] == BitsOf(b / 2, width - 1);
      BitsOfValue(b / 2, width - 1);
    }
  }

  /** The value of a concatenation: the first part shifted past the second. */
  lemma {:induction false} BinaryValueConcat(s: string, t: string)
    ensures BinaryValue(s + t) == BinaryValue(s) * Pow2(|t|) + BinaryValue(t)
    decreases |t|
  {
    if |t| == 0 {
      assert s + t == s;
    } else {
      var t' := t[..|t| - 1];
      var bit := if t[|t| - 1] == '1' then 1 else 0;
      assert (s + t)[..|s + t| - 1] == s + t';
      assert (s + t)[|s + t| - 1] == t[|t| - 1];
      BinaryValueConcat(s, t');
      assert BinaryValue(s + t) == 2 * BinaryValue(s + t') + bit;
      assert BinaryValue(t) == 2 * BinaryValue(t') + bit;
      assert Pow2(|t|) == 2 * Pow2(|t'|);
      ShiftStep(BinaryValue(s), Pow2(|t'|), BinaryValue(t'), bit);
    }
  }

  lemma ShiftStep(a: nat, p: nat, v: nat, bit: nat)
    ensures 2 * (a * p + v) + bit == a * (2 * p) + (2 * v + bit)
  {
  }

  /**
   * The train of a sensor sending `bits`: every low pulse lasts `low` polls,
   * the response's high pulse `one`, and each data high pulse `one` or `zero`
   * polls for a 1 or a 0.
   */
  function TrainOf(bits: string, low: nat, zero: nat, one: nat): (runs: seq<nat>)
    requires |bits| == DataBitCount
    ensures |runs| == 2 * PulsesCnt
  {
    seq(2 * PulsesCnt, j requires 0 <= j < 2 * PulsesCnt =>
      if j % 2 == 0 then low
      else if j == 1 then one
      else if bits[(j - 3) / 2] == '1' then one else zero)
  }

  lemma {:induction false} LowSumOfTrain(bits: string, low: nat, zero: nat, one: nat, n: nat)
    requires |bits| == DataBitCount && n <= DataBitCount
    ensures LowSum(TrainOf(bits, low, zero, one), n) == n * low
  {
    if n > 0 {
      LowSumOfTrain(bits, low, zero, one, n - 1);
      assert TrainOf(bits, low, zero, one)[2 * n] == low;
      assert n * low == (n - 1) * low + low;
    }
  }

  predicate IsBitString(s: string)
  {
    forall i :: 0 <= i < |s| ==> s[i] == '0' || s[i] == '1'
  }

  /** With a zero shorter and a one longer than a low pulse, the decoder reads back the bits sent. */
  lemma {:induction false} DataBitsOfTrain(bits: string, low: nat, zero: nat, one: nat, n: nat)
    requires |bits| == DataBitCount && IsBitString(bits) && n <= DataBitCount
    requires zero <= low < one
    ensures DataBits(TrainOf(bits, low, zero, one), n) == bits[..n]
  {
    var runs := TrainOf(bits, low, zero, one);
    LowSumOfTrain(bits, low, zero, one, DataBitCount);
    assert Threshold(runs) == low as real;
    if n > 0 {
      DataBitsOfTrain(bits, low, zero, one, n - 1);
      assert bits[..n] == bits[..n - 1] + [bits[n - 1]];
      assert runs[3 + 2 * (n - 1)] == if bits[n - 1] == '1' then one else zero;
    }
  }

  /** The 40 bits of five bytes, most significant first. */
  function BytesToBits(b0: nat, b1: nat, b2: nat, b3: nat, b4: nat): (s: string)
    ensures |s| == DataBitCount
  {
    BitsOf(b0, 8) + BitsOf(b1, 8) + BitsOf(b2, 8) + BitsOf(b3, 8) + BitsOf(b4, 8)
  }

  lemma {:induction false} BitsOfIsBitString(b: nat, width: nat)
    ensures IsBitString(BitsOf(b, width))
  {
    if width > 0 {
      BitsOfIsBitString(b / 2, width - 1);
    }
  }

  lemma BytesOfBits(b0: nat, b1: nat, b2: nat, b3: nat, b4: nat)
    requires b0 < 0x100 && b1 < 0x100 && b2 < 0x100 && b3 < 0x100 && b4 < 0x100
    ensures var data := BytesToBits(b0, b1, b2, b3, b4);
      IsBitString(data) &&
      ByteAt(data, 0) == b0 && ByteAt(data, 1) == b1 && ByteAt(data, 2) == b2 &&
      ByteAt(data, 3) == b3 && ByteAt(data, 4) == b4 &&
      BinaryValue(data[0..16]) == b0 * 0x100 + b1
  {
    var data := BytesToBits(b0, b1, b2, b3, b4);
    var p1 := BitsOf(b0, 8);
    var p2 := p1 + BitsOf(b1, 8);
    var p3 := p2 + BitsOf(b2, 8);
    var p4 := p3 + BitsOf(b3, 8);
    assert data == p4 + BitsOf(b4, 8);
    assert Pow2(8) == 0x100 by {
      assert Pow2(4) == 16;
    }
    BitsOfIsBitString(b0, 8);
    BitsOfIsBitString(b1, 8);
    BitsOfIsBitString(b2, 8);
    BitsOfIsBitString(b3, 8);
    BitsOfIsBitString(b4, 8);
    assert data[32..40] == BitsOf(b4, 8) && data[..32] == p4;
    assert data[24..32] == p4[24..32] == BitsOf(b3, 8) && p4[..24] == p3;
    assert data[16..24] == p3[16..24] == BitsOf(b2, 8) && p3[..16] == p2;
    assert data[8..16] == p2[8..16] == BitsOf(b1, 8) && p2[..8] == p1;
    assert data[0..8] == p1;
    assert data[0..16] == p2;
    assert IsBitString(data) by {
      assert forall i :: 0 <= i < 8 ==>
        (data[i] == p1[i] && data[8 + i] == BitsOf(b1, 8)[i] &&
         data[16 + i] == BitsOf(b2, 8)[i] && data[24 + i] == BitsOf(b3, 8)[i] && data[32 + i] == BitsOf(b4, 8)[i]);
    }
    BitsOfValue(b0, 8);
    BitsOfValue(b1, 8);
    BitsOfValue(b2, 8);
    BitsOfValue(b3, 8);
    BitsOfValue(b4, 8);
    BinaryValueConcat(BitsOf(b0, 8), BitsOf(b1, 8));
  }

  /**
   * Round trip: the train a DHT11 sends for humidity `h` and temperature `t`
   * with the right checksum decodes to exactly those values.
   */
  lemma Dht11RoundTrip(h: nat, hDecimal: nat, t: nat, tDecimal: nat, low: nat, zero: nat, one: nat)
    requires h < 0x100 && hDecimal < 0x100 && t < 0x100 && tDecimal < 0x100
    requires zero <= low < one <= MaxCnt
    ensures var bits := BytesToBits(h, hDecimal, t, tDecimal, Checksum(h, hDecimal, t, tDecimal));
      Decode(Dht11, 0, TrainOf(bits, low, zero, one)) == Ok(Sample(t as real, h as real))
  {
    var bits := BytesToBits(h, hDecimal, t, tDecimal, Checksum(h, hDecimal, t, tDecimal));
    var runs := TrainOf(bits, low, zero, one);
    BytesOfBits(h, hDecimal, t, tDecimal, Checksum(h, hDecimal, t, tDecimal));
    DataBitsOfTrain(bits, low, zero, one, DataBitCount);
    assert bits[..DataBitCount] == bits;
    assert forall k :: 0 <= k < |runs| ==> runs[k] <= MaxCnt;
  }

  /** A train with a wrong checksum byte is rejected, whatever the sensor type. */
  lemma WrongChecksumRejected(dhtType: DhtType, b0: nat, b1: nat, b2: nat, b3: nat, b4: nat, low: nat, zero: nat, one: nat)
    requires b0 < 0x100 && b1 < 0x100 && b2 < 0x100 && b3 < 0x100 && b4 < 0x100
    requires b4 != Checksum(b0, b1, b2, b3)
    requires zero <= low < one <= MaxCnt
    ensures Decode(dhtType, 0, TrainOf(BytesToBits(b0, b1, b2, b3, b4), low, zero, one)) == Err(ChecksumError)
  {
    var bits := BytesToBits(b0, b1, b2, b3, b4);
    var runs := TrainOf(bits, low, zero, one);
    BytesOfBits(b0, b1, b2, b3, b4);
    DataBitsOfTrain(bits, low, zero, one, DataBitCount);
    assert bits[..DataBitCount] == bits;
    assert forall k :: 0 <= k < |runs| ==> runs[k] <= MaxCnt;
  }

  /** What one call of `DHT.read` sees on the pin. */
  datatype PulseTrain = PulseTrain(pullup: nat, runs: seq<nat>)

  predicate WellFormed(train: PulseTrain)
  {
    |train.runs| == 2 * PulsesCnt
  }

  /** Every attempt's train has its 41 low/high pairs. */
  predicate AllWellFormed(trains: seq<PulseTrain>)
  {
    forall k :: 0 <= k < |trains| ==> |trains[k].runs| == 2 * PulsesCnt
  }

  /** What `DHTXX.read` returns: the two readings under their names. */
  datatype Reading = Reading(temperature: real, humidity: real)

  /** The outcome of the retry loop over the trains of successive attempts, from attempt `i` on. */
  function RetryFrom(dhtType: DhtType, trains: seq<PulseTrain>, i: nat, lastError: DhtError): Result<Reading, DhtError>
    requires i <= |trains| && AllWellFormed(trains)
    decreases |trains| - i
  {
    if i == |trains| then Err(lastError)
    else
      var r := Decode(dhtType, trains[i].pullup, trains[i].runs);
      if r.Ok? then Ok(Reading(r.value.temperature, r.value.humidity))
      else RetryFrom(dhtType, trains, i + 1, r.error)
  }

  /** A DHT sensor on a pin, as `setup` creates it. */
  datatype DhtSensor = DhtSensor(dhtType: DhtType, pin: int)

  class Dhtxx {
    const dhtType: DhtType
    const pin: int
    var sensor: Option<DhtSensor>
    /** The number of `DHT.read` calls made. */
    var attempts: nat

    constructor (dhtType: DhtType, pin: int)
      ensures this.dhtType == dhtType && this.pin == pin
      ensures sensor == None && attempts == 0
    {
      this.dhtType := dhtType;
      this.pin := pin;
      sensor := None;
      attempts := 0;
    }

    method Setup()
      modifies this
      ensures sensor == Some(DhtSensor(dhtType, pin)) && attempts == old(attempts)
    {
      sensor := Some(DhtSensor(dhtType, pin));
    }

    /**
     * `read`: up to 16 attempts, returning the first that decodes and
     * otherwise re-raising the last error. `trains` holds what each attempt
     * would see.
     */
    method Read(trains: seq<PulseTrain>) returns (r: Result<Reading, DhtError>)
      requires |trains| == MaxAttempts && AllWellFormed(trains)
      modifies this
      ensures sensor == old(sensor)
      ensures old(sensor).None? ==> r == Err(NotInitialized) && attempts == old(attempts)
      ensures old(sensor).Some? ==> r == RetryFrom(old(sensor).value.dhtType, trains, 0, NotInitialized)
      ensures old(sensor).Some? ==> old(attempts) < attempts <= old(attempts) + MaxAttempts
    {
      if sensor.None? {
        return Err(NotInitialized);
      }
      var t := sensor.value.dhtType;
      var lastError := NotInitialized;
      var i := 0;
      while i < MaxAttempts
        invariant 0 <= i <= MaxAttempts
        invariant attempts == old(attempts) + i
        invariant i > 0 ==> RetryFrom(t, trains, 0, NotInitialized) == RetryFrom(t, trains, i, lastError)
        invariant i == 0 ==> lastError == NotInitialized
        invariant sensor == old(sensor)
        decreases MaxAttempts - i
      {
        var s := ReadOnce(t, trains[i]);
        if s.Ok? {
          return Ok(Reading(s.value.temperature, s.value.humidity));
        }
        lastError := s.error;
        i := i + 1;
      }
      r := Err(lastError);
    }

    method ReadOnce(t: DhtType, train: PulseTrain) returns (s: Result<Sample, DhtError>)
      requires WellFormed(train)
      modifies this
      ensures attempts == old(attempts) + 1 && sensor == old(sensor)
      ensures s == Decode(t, train.pullup, train.runs)
    {
      attempts := attempts + 1;
      s := ReadTrain(t, train.pullup, train.runs);
    }
  }

  /** 16 failed attempts give the error of the last one. */
  lemma {:induction false} AllFailLastErrorWins(dhtType: DhtType, trains: seq<PulseTrain>, i: nat, e: DhtError)
    requires i < |trains| && AllWellFormed(trains)
    requires forall k :: i <= k < |trains| ==> Decode(dhtType, trains[k].pullup, trains[k].runs).Err?
    ensures RetryFrom(dhtType, trains, i, e) == Err(Decode(dhtType, trains[|trains| - 1].pullup, trains[|trains| - 1].runs).error)
    decreases |trains| - i
  {
    if i + 1 < |trains| {
      AllFailLastErrorWins(dhtType, trains, i + 1, Decode(dhtType, trains[i].pullup, trains[i].runs).error);
    }
  }

  /** The first attempt that decodes is the one returned. */
  lemma {:induction false} FirstSuccessWins(dhtType: DhtType, trains: seq<PulseTrain>, i: nat, j: nat, e: DhtError)
    requires i <= j < |trains| && AllWellFormed(trains)
    requires forall k :: i <= k < j ==> Decode(dhtType, trains[k].pullup, trains[k].runs).Err?
    requires Decode(dhtType, trains[j].pullup, trains[j].runs).Ok?
    ensures var s := Decode(dhtType, trains[j].pullup, trains[j].runs).value;
      RetryFrom(dhtType, trains, i, e) == Ok(Reading(s.temperature, s.humidity))
    decreases j - i
  {
    if i < j {
      FirstSuccessWins(dhtType, trains, i + 1, j, Decode(dhtType, trains[i].pullup, trains[i].runs).error);
    }
  }
}
