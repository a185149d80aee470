/**
 * The Sensirion SHT30 temperature and humidity driver: its address check,
 * the measurement sequence on the I2C bus, and the decoding of the six-byte
 * frame (two 16-bit words, each followed by its CRC-8).
 */
module Sht30 {
  import opened Wrappers
  import Crc
  import opened I2c
  import DriverConfig
  import Text

  /** The two addresses the sensor answers on; the configuration accepts exactly their texts. */
  const SensorAddresses: set<int> := {0x44, 0x45}
  const DefaultAddress: string := "0x44"

  const RegMeasure: int := 0x2C
  const RegData: int := 0x00
  const ParamHighRepeatability: int := 0x06
  const ReadDelayMs: int := 100
  const FrameLength: int := 6

  datatype Sht30Error =
    | AddressNotSupported(address: string)
    | NotSetUp
    | Bus(error: I2cError)
    /** The frame ended before the byte the decoder needed (an `IndexError`). */
    | FrameTooShort
    | TemperatureInvalid
    | HumidityInvalid

  /** The configuration's `address` field: a literal `"0x44"` or `"0x45"`, `"0x44"` when absent. */
  function ConfigAddress(address: Option<string>): (r: Result<string, Sht30Error>)
    ensures r.Ok? <==> address.None? || address.value in {"0x44", "0x45"}
    ensures address.None? ==> r == Ok(DefaultAddress)
  {
    if address.None? then Ok(DefaultAddress)
    else if address.value in {"0x44", "0x45"} then Ok(address.value)
    else Err(AddressNotSupported(address.value))
  }

  /** The constructor's check of the parsed address. */
  function AddressCheck(address: string): (r: Result<int, Sht30Error>)
    ensures r.Ok? <==> DriverConfig.AddressInt(address).Some? && DriverConfig.AddressInt(address).value in SensorAddresses
    ensures r.Ok? ==> r.value in SensorAddresses
  {
    var n := DriverConfig.AddressInt(address);
    if n.Some? && n.value in SensorAddresses then Ok(n.value) else Err(AddressNotSupported(address))
  }

  /** Every address the configuration accepts passes the constructor's check. */
  lemma ConfiguredAddressesPass(address: Option<string>)
    requires ConfigAddress(address).Ok?
    ensures AddressCheck(ConfigAddress(address).value).Ok?
  {
    var a := ConfigAddress(address).value;
    if a == "0x44" {
      DriverConfig.HexOf44();
      PrefixedAddress(a, "44");
    } else {
      assert a == "0x45";
      HexOf45();
      PrefixedAddress(a, "45");
    }
  }

  /** An address text of hexadecimal digits behind `0x` is read as their value. */
  lemma PrefixedAddress(a: string, digits: string)
    requires a == "0x" + digits && |digits| >= 1 && Text.AllHexDigits(digits)
    ensures DriverConfig.AddressInt(a) == Some(Text.HexValue(digits) as int)
  {
    Text.ParseHexOfPrefixed(digits);
  }

  lemma HexOf45()
    ensures Text.AllHexDigits("45") && Text.HexValue("45") == 0x45
  {
    assert "45"[..1] == "4";
    assert "4"[..0] == "";
  }

  /**
   * `_validate_data`: non-empty data whose CRC-8 (init 0xFF, no final XOR,
   * polynomial 0x31) is `crc`. Only a byte can match, and a byte matches
   * exactly when the CRC register over the data followed by it is zero.
   */
  function ValidateData(data: seq<Crc.Byte>, crc: int): (ok: bool)
    ensures ok ==> |data| > 0 && 0 <= crc < 256
    ensures 0 <= crc < 256 ==> (ok <==> |data| > 0 && Crc.Register(0xFF, data + [crc as Crc.Byte], 0x31) == 0)
  {
    var c := Crc.Crc8Of(data, 0xFF, 0x00, 0x31);
    if 0 <= crc < 256 then
      Crc.CrcMatchesIffZeroResidue(0xFF, data, crc as Crc.Byte, 0x31);
      assert c as int == crc <==> c == crc as Crc.Byte by {
        assert (c as int) as Crc.Byte == c && (crc as Crc.Byte) as int == crc;
      }
      |data| > 0 && c as int == crc
    else
      |data| > 0 && c as int == crc
  }

  lemma EmptyDataIsInvalid(crc: int)
    ensures !ValidateData([], crc)
  {
  }

  function AsByte(b: Uint8): Crc.Byte { b as Crc.Byte }

  /** The CRC byte the sensor sends after a word. */
  function WordCrc(hi: Uint8, lo: Uint8): Uint8
  {
    Crc.Crc8Of([AsByte(hi), AsByte(lo)], 0xFF, 0x00, 0x31) as int
  }

  /** A word of the frame, most significant byte first. */
  function Word(hi: Uint8, lo: Uint8): (w: Uint16)
    ensures HighByte(w) == hi && LowByte(w) == lo
  {
    hi * 0x100 + lo
  }

  /** Celsius from the raw word: -45 + 175 * raw / 65535. */
  function Temperature(raw: Uint16): (t: real)
    ensures -45.0 <= t <= 130.0
  {
    -45.0 + 175.0 * (raw as real) / 65535.0
  }

  /** Relative humidity in percent from the raw word: 100 * raw / 65535. */
  function Humidity(raw: Uint16): (h: real)
    ensures 0.0 <= h <= 100.0
  {
    100.0 * (raw as real) / 65535.0
  }

  lemma ScalingMonotone(a: Uint16, b: Uint16)
    requires a < b
    ensures Temperature(a) < Temperature(b)
    ensures Humidity(a) < Humidity(b)
  {
  }

  lemma ScalingEnds()
    ensures Temperature(0) == -45.0 && Temperature(0xFFFF) == 130.0
    ensures Humidity(0) == 0.0 && Humidity(0xFFFF) == 100.0
  {
  }

  /** What `_get_measurement` returns: humidity first, then temperature. */
  datatype Measurement = Measurement(humidity: real, temperature: real)

  /** The temperature word is checked before the humidity bytes are looked at. */
  function DecodeFrame(data: seq<Uint8>): (r: Result<Measurement, Sht30Error>)
  {
    if |data| < 3 then Err(FrameTooShort)
    else if !ValidateData([AsByte(data[0]), AsByte(data[1])], data[2]) then Err(TemperatureInvalid)
    else if |data| < 6 then Err(FrameTooShort)
    else if !ValidateData([AsByte(data[3]), AsByte(data[4])], data[5]) then Err(HumidityInvalid)
    else Ok(Measurement(Humidity(Word(data[3], data[4])), Temperature(Word(data[0], data[1]))))
  }

  /** The frame a sensor sends for two raw words. */
  function EncodeFrame(rawTemperature: Uint16, rawHumidity: Uint16): (f: seq<Uint8>)
    ensures |f| == FrameLength
  {
    var th, tl := HighByte(rawTemperature), LowByte(rawTemperature);
    var hh, hl := HighByte(rawHumidity), LowByte(rawHumidity);
    [th, tl, WordCrc(th, tl), hh, hl, WordCrc(hh, hl)]
  }

  lemma WordOfBytes(w: Uint16)
    ensures Word(HighByte(w), LowByte(w)) == w
  {
  }

  /** A frame the sensor sent decodes to the scaled readings of its words. */
  lemma DecodeEncodedFrame(rawTemperature: Uint16, rawHumidity: Uint16)
    ensures DecodeFrame(EncodeFrame(rawTemperature, rawHumidity))
         == Ok(Measurement(Humidity(rawHumidity), Temperature(rawTemperature)))
  {
    var f := EncodeFrame(rawTemperature, rawHumidity);
    var c1 := Crc.Crc8Of([AsByte(f[0]), AsByte(f[1])], 0xFF, 0x00, 0x31);
    var c2 := Crc.Crc8Of([AsByte(f[3]), AsByte(f[4])], 0xFF, 0x00, 0x31);
    assert f[2] == c1 as int;
    assert f[5] == c2 as int;
    WordOfBytes(rawTemperature);
    WordOfBytes(rawHumidity);
  }

  /** The only frames accepted are sensor frames: their first six bytes are the encoding of their own words. */
  lemma AcceptedFramesAreEncodings(data: seq<Uint8>)
    requires DecodeFrame(data).Ok?
    ensures |data| >= FrameLength
    ensures data[..FrameLength] == EncodeFrame(Word(data[0], data[1]), Word(data[3], data[4]))
  {
    assert WordCrc(data[0], data[1]) == data[2];
    assert WordCrc(data[3], data[4]) == data[5];
  }

  /** Each word check is the CRC residue test: the register over the word and its CRC byte is zero. */
  lemma WordCheckIsZeroResidue(hi: Uint8, lo: Uint8, crc: Crc.Byte)
    ensures ValidateData([AsByte(hi), AsByte(lo)], crc as int)
        <==> Crc.Register(0xFF, [AsByte(hi), AsByte(lo), crc], 0x31) == 0
  {
    var c := Crc.Crc8Of([AsByte(hi), AsByte(lo)], 0xFF, 0x00, 0x31);
    assert c as int == crc as int ==> c == crc by {
      assert (c as int) as Crc.Byte == c && (crc as int) as Crc.Byte == crc;
    }
    Crc.CrcMatchesIffZeroResidue(0xFF, [AsByte(hi), AsByte(lo)], crc, 0x31);
    assert [AsByte(hi), AsByte(lo)] + [crc] == [AsByte(hi), AsByte(lo), crc];
  }

  /** The data-sheet word 0xBEEF with its CRC 0x92 passes the temperature check. */
  lemma DataSheetWordAccepted()
    ensures ValidateData([0xBE, 0xEF], 0x92)
  {
    Crc.Sht3xCheckExample();
  }

  /** What `read` returns: the two readings under their names. */
  datatype Reading = Reading(temperature: real, humidity: real)

  class Sht30Sensor {
    const address: int
    var i2c: I2cDevice?
    /** The pauses taken, in milliseconds, in order. */
    var sleeps: seq<int>

    /** The constructor accepts only 0x44 and 0x45. */
    static method Create(config: string) returns (r: Result<Sht30Sensor, Sht30Error>)
      ensures r.Ok? <==> AddressCheck(config).Ok?
      ensures r.Ok? ==> fresh(r.value) && r.value.address == AddressCheck(config).value
      ensures r.Ok? ==> r.value.i2c == null && r.value.sleeps == []
    {
      var checked := AddressCheck(config);
      if checked.Err? {
        return Err(checked.error);
      }
      var s := new Sht30Sensor.Init(checked.value);
      return Ok(s);
    }

    constructor Init(address: int)
      ensures this.address == address && i2c == null && sleeps == []
    {
      this.address := address;
      i2c := null;
      sleeps := [];
    }

    /** `setup` opens the device at the sensor's address. */
    method Setup(bus: Option<int>, cpuInfo: Option<seq<string>>)
      modifies this
      ensures i2c != null && fresh(i2c)
      ensures i2c.address == address && i2c.transfers == []
      ensures i2c.busNumber == (if bus.Some? then bus.value else BusNumber(cpuInfo))
      ensures sleeps == old(sleeps)
    {
      i2c := new I2cDevice(address, bus, cpuInfo);
    }

    /**
     * `_get_measurement`: start a high-repeatability measurement, wait, read
     * six bytes from the data register and decode them. `writeDelivered` and
     * `reply` are what the bus does with the write and the read.
     */
    method GetMeasurement(readDelayMs: int, writeDelivered: bool, reply: Option<seq<Uint8>>)
      returns (r: Result<Measurement, Sht30Error>)
      modifies this, i2c
      ensures i2c == old(i2c)
      ensures old(i2c) == null ==> r == Err(NotSetUp) && sleeps == old(sleeps)
      ensures old(i2c) != null && !writeDelivered ==>
        r == Err(Bus(AccessError(i2c.address))) && sleeps == old(sleeps) &&
        i2c.transfers == old(i2c.transfers) + [WriteByteData(i2c.address, RegMeasure, ParamHighRepeatability)]
      ensures old(i2c) != null && writeDelivered ==>
        sleeps == old(sleeps) + [readDelayMs] &&
        i2c.transfers == old(i2c.transfers) + [WriteByteData(i2c.address, RegMeasure, ParamHighRepeatability),
                                               ReadBlockData(i2c.address, RegData, FrameLength)] &&
        r == (if reply.None? then Err(Bus(AccessError(i2c.address))) else DecodeFrame(reply.value))
    {
      if i2c == null {
        return Err(NotSetUp);
      }
      var w := i2c.Write8(RegMeasure, ParamHighRepeatability, writeDelivered);
      if w.Err? {
        return Err(Bus(w.error));
      }
      sleeps := sleeps + [readDelayMs];
      var data := i2c.ReadList(RegData, FrameLength, reply);
      if data.Err? {
        return Err(Bus(data.error));
      }
      r := DecodeFrame(data.value);
    }

    /** `read`: one measurement with a 100 ms delay, named temperature and humidity. */
    method Read(writeDelivered: bool, reply: Option<seq<Uint8>>) returns (r: Result<Reading, Sht30Error>)
      modifies this, i2c
      ensures i2c == old(i2c)
      ensures old(i2c) == null ==> r == Err(NotSetUp) && sleeps == old(sleeps)
      ensures old(i2c) != null && !writeDelivered ==>
        r == Err(Bus(AccessError(i2c.address))) && sleeps == old(sleeps) &&
        i2c.transfers == old(i2c.transfers) + [WriteByteData(i2c.address, RegMeasure, ParamHighRepeatability)]
      ensures old(i2c) != null && writeDelivered ==>
        sleeps == old(sleeps) + [ReadDelayMs] &&
        i2c.transfers == old(i2c.transfers) + [WriteByteData(i2c.address, RegMeasure, ParamHighRepeatability),
                                               ReadBlockData(i2c.address, RegData, FrameLength)]
      ensures old(i2c) != null && writeDelivered && reply.None? ==> r == Err(Bus(AccessError(i2c.address)))
      ensures old(i2c) != null && writeDelivered && reply.Some? ==>
        var m := DecodeFrame(reply.value);
        (r.Err? <==> m.Err?) &&
        (m.Err? ==> r.error == m.error) &&
        (m.Ok? ==> r.value == Reading(m.value.temperature, m.value.humidity))
    {
      var m := GetMeasurement(ReadDelayMs, writeDelivered, reply);
      if m.Err? {
        return Err(m.error);
      }
      r := Ok(Reading(m.value.temperature, m.value.humidity));
    }
  }
}
