/// The DS18B20 temperature-sensor driver of `src/ds18b20.rs`: its family code,
/// command bytes, conversion resolutions and their conversion times, the
/// checked and unchecked constructors, the two-phase measurement over the bus
/// and the decoding of the scratchpad's raw temperature word.
module Ds18b20 {
  import opened Wrappers
  import opened OneWire
  import opened Bus

  /// The family code (address byte 0) of every DS18B20.
  const FamilyCode: byte := 0x28

  /// The function commands of the DS18B20.
  datatype Command =
    | Convert
    | WriteScratchpad
    | ReadScratchpad
    | CopyScratchpad
    | RecallE2
    | ReadPowerSupply

  /// The command byte put on the wire; `CommandOf` decodes it back, so no two
  /// commands share a byte.
  function CommandCode(c: Command): (code: byte)
    ensures CommandOf(code) == Some(c)
  {
    match c
    case Convert => 0x44
    case WriteScratchpad => 0x4E
    case ReadScratchpad => 0xBE
    case CopyScratchpad => 0x48
    case RecallE2 => 0xB8
    case ReadPowerSupply => 0xB4
  }

  /// The command a byte stands for, if any.
  function CommandOf(code: byte): Option<Command>
  {
    if code == 0x44 then Some(Convert)
    else if code == 0x4E then Some(WriteScratchpad)
    else if code == 0xBE then Some(ReadScratchpad)
    else if code == 0x48 then Some(CopyScratchpad)
    else if code == 0xB8 then Some(RecallE2)
    else if code == 0xB4 then Some(ReadPowerSupply)
    else None
  }

  /// Every byte that decodes to a command is that command's byte.
  lemma CommandOfCode(code: byte)
    ensures CommandOf(code).Some? ==> CommandCode(CommandOf(code).value) == code
  {
  }

  /// The six command bytes are pairwise distinct.
  lemma CommandCodesDistinct(c1: Command, c2: Command)
    ensures CommandCode(c1) == CommandCode(c2) <==> c1 == c2
  {
    assert CommandOf(CommandCode(c1)) == Some(c1);
    assert CommandOf(CommandCode(c2)) == Some(c2);
  }

  /// The conversion resolutions, from 9 to 12 bits.
  datatype MeasureResolution = TC8 | TC4 | TC2 | TC

  /// The number of bits of the converted temperature.
  function ResolutionBits(r: MeasureResolution): (bits: nat)
    ensures 9 <= bits <= 12
  {
    match r
    case TC8 => 9
    case TC4 => 10
    case TC2 => 11
    case TC => 12
  }

  /// The configuration-register value selecting `r`: the resolution in bits
  /// 6..5 (0 for 9 bits up to 3 for 12 bits) over five bits that read as one.
  function ResolutionCode(r: MeasureResolution): (code: byte)
    ensures code == 32 * (ResolutionBits(r) - 9) + 0x1F
    ensures ResolutionOf(code) == Some(r)
  {
    match r
    case TC8 => 0x1F
    case TC4 => 0x3F
    case TC2 => 0x5F
    case TC => 0x7F
  }

  /// The resolution a configuration-register value selects, if it is one of the four.
  function ResolutionOf(code: byte): Option<MeasureResolution>
  {
    if code == 0x1F then Some(TC8)
    else if code == 0x3F then Some(TC4)
    else if code == 0x5F then Some(TC2)
    else if code == 0x7F then Some(TC)
    else None
  }

  /// The four configuration values are pairwise distinct.
  lemma ResolutionCodesDistinct(r1: MeasureResolution, r2: MeasureResolution)
    ensures ResolutionCode(r1) == ResolutionCode(r2) <==> r1 == r2
  {
    assert ResolutionOf(ResolutionCode(r1)) == Some(r1);
    assert ResolutionOf(ResolutionCode(r2)) == Some(r2);
  }

  /// `time_ms`: the longest conversion time in milliseconds. It fits the
  /// source's `u16`, and it is the 750 ms of a 12-bit conversion halved for
  /// each bit of resolution dropped, rounded up.
  function TimeMs(r: MeasureResolution): (ms: nat)
    ensures 0 < ms < 0x1_0000
    ensures var d := Pow2(12 - ResolutionBits(r)); (ms - 1) * d < 750 <= ms * d
  {
    match r
    case TC8 => 94
    case TC4 => 188
    case TC2 => 375
    case TC => 750
  }

  /// A finer resolution takes strictly longer to convert, and conversely.
  lemma TimeMsIncreasing(r1: MeasureResolution, r2: MeasureResolution)
    ensures ResolutionBits(r1) < ResolutionBits(r2) <==> TimeMs(r1) < TimeMs(r2)
  {
  }

  /// A driver bound to one device, with the resolution it assumes.
  datatype DS18B20 = DS18B20(device: Device, resolution: MeasureResolution)

  /// `new`: the checked constructor. It accepts exactly the devices whose
  /// family code is the DS18B20's, and reports the expected and actual codes
  /// otherwise.
  function New(device: Device): (r: Result<DS18B20, Error>)
    ensures r.Ok? <==> device.address[0] == FamilyCode
    ensures r.Ok? ==> r.value.device == device && r.value.resolution == TC
    ensures r.Err? ==> r.error == FamilyCodeMismatch(FamilyCode, device.address[0])
  {
    if device.address[0] != FamilyCode then Err(FamilyCodeMismatch(FamilyCode, device.address[0]))
    else Ok(DS18B20(device, TC))
  }

  /// `new_forced`: the unchecked constructor, which accepts any device.
  function NewForced(device: Device): (s: DS18B20)
    ensures s.device == device && s.resolution == TC
  {
    DS18B20(device, TC)
  }

  /// Whenever the checked constructor succeeds it builds what the unchecked
  /// one does.
  lemma NewIsCheckedNewForced(device: Device)
    ensures New(device).Ok? ==> New(device).value == NewForced(device)
    ensures New(device).Err? <==> SensorFamilyCode() != device.address[0]
  {
  }

  /// `family_code` of the `Sensor` implementation.
  function SensorFamilyCode(): (code: byte)
    ensures code == 0x28
    ensures New(Device([code, 0, 0, 0, 0, 0, 0, 0])).Ok?
  {
    FamilyCode
  }

  /// A sensor from either constructor announces 750 ms, the 12-bit
  /// conversion time.
  lemma ConstructedTimeMs(device: Device)
    ensures TimeMs(NewForced(device).resolution) == 750
    ensures New(device).Ok? ==> TimeMs(New(device).value.resolution) == 750
  {
  }

  /// The 16-bit value of a little-endian byte pair.
  function LittleEndianU16(lo: byte, hi: byte): (v: nat)
    ensures v < 0x1_0000
    ensures v % 256 == lo && v / 256 == hi
  {
    lo + 256 * hi
  }

  /// A 16-bit value reinterpreted as two's complement (`as i16`): the one
  /// value in the `i16` range congruent to it modulo 2^16.
  function AsI16(v: nat): (t: int)
    requires v < 0x1_0000
    ensures -0x8000 <= t < 0x8000
    ensures (t - v) % 0x1_0000 == 0
  {
    if v >= 0x8000 then v - 0x1_0000 else v
  }

  /// The raw temperature word of a scratchpad, in sixteenths of a degree.
  /// It is negative exactly when the top bit of byte 1 is set.
  function RawTemperature(scratchpad: seq<byte>): (t: int)
    requires |scratchpad| >= 2
    ensures -0x8000 <= t < 0x8000
    ensures t < 0 <==> scratchpad[1] >= 0x80
  {
    AsI16(LittleEndianU16(scratchpad[0], scratchpad[1]))
  }

  /// The 16-bit pattern of an `i16` value (`as u16`).
  function Word(t: int): (v: nat)
    requires -0x8000 <= t < 0x8000
    ensures v < 0x1_0000 && AsI16(v) == t
  {
    if t < 0 then t + 0x1_0000 else t
  }

  /// The two bytes, little-endian, that hold the raw temperature `t`.
  function EncodeRaw(t: int): (bytes: seq<byte>)
    requires -0x8000 <= t < 0x8000
    ensures |bytes| == 2
  {
    var v := Word(t);
    [v % 256, v / 256]
  }

  /// Decoding what was encoded gives back the raw temperature.
  lemma DecodeEncodeRaw(t: int, rest: seq<byte>)
    requires -0x8000 <= t < 0x8000
    ensures RawTemperature(EncodeRaw(t) + rest) == t
  {
    var bytes := EncodeRaw(t) + rest;
    assert LittleEndianU16(bytes[0], bytes[1]) == Word(t);
  }

  /// Encoding a decoded scratchpad gives back its first two bytes.
  lemma EncodeDecodeRaw(scratchpad: seq<byte>)
    requires |scratchpad| >= 2
    ensures EncodeRaw(RawTemperature(scratchpad)) == scratchpad[..2]
  {
    assert Word(RawTemperature(scratchpad)) == LittleEndianU16(scratchpad[0], scratchpad[1]);
  }

  /// `read_temperature_from_scratchpad`: degrees Celsius, the raw word over 16.
  /// Every raw word and its sixteenth are exact in `f32`, so the value is
  /// stated as a real number.
  function TemperatureFromScratchpad(scratchpad: seq<byte>): (celsius: real)
    requires |scratchpad| >= 2
    ensures celsius * 16.0 == RawTemperature(scratchpad) as real
    ensures -2048.0 <= celsius < 2048.0
  {
    RawTemperature(scratchpad) as real / 16.0
  }

  /// The outcome of a successful scratchpad transfer: the CRC-8 of bytes 0..8,
  /// seeded with the device's address, is checked against byte 8 first, and
  /// only a scratchpad that passes is decoded.
  function CheckedTemperature(crc8: seq<byte> -> byte, device: Device, scratchpad: seq<byte>): (r: Result<real, Error>)
    requires |scratchpad| == 9
    ensures r.Ok? <==> crc8(device.address + scratchpad[..8]) == scratchpad[8]
    ensures r.Ok? ==> r.value == TemperatureFromScratchpad(scratchpad)
    ensures r.Err? ==> r.error == CrcMismatch(crc8(device.address + scratchpad[..8]), scratchpad[8])
  {
    var check := EnsureCorrectCrc8(crc8, device, scratchpad[..8], scratchpad[8]);
    if check.Fail? then Err(check.error) else Ok(TemperatureFromScratchpad(scratchpad))
  }

  /// `measure_temperature`: one reset + select + write of the Convert command
  /// to the sensor's own device; on success the sensor's resolution, and the
  /// wire's error otherwise.
  method MeasureTemperature(s: DS18B20, wire: Wire) returns (r: Result<MeasureResolution, Error>)
    modifies wire
    ensures wire.log == old(wire.log) + [Transaction(s.device, [0x44], 0)]
    ensures wire.outcomes == Consume(old(wire.outcomes)) && wire.replies == old(wire.replies)
    ensures var o := NextOutcome(old(wire.outcomes));
            r == if o.Pass? then Ok(s.resolution) else Err(o.error)
  {
    var sent := wire.ResetSelectWriteOnly(s.device, [CommandCode(Convert)]);
    if sent.Fail? {
      return Err(sent.error);
    }
    r := Ok(s.resolution);
  }

  /// `read_temperature`: one reset + select + write of the ReadScratchpad
  /// command followed by a 9-byte read; then the CRC check, and the decoding
  /// only once the check has passed.
  method ReadTemperature(s: DS18B20, wire: Wire, crc8: seq<byte> -> byte) returns (r: Result<real, Error>)
    modifies wire
    ensures wire.log == old(wire.log) + [Transaction(s.device, [0xBE], 9)]
    ensures wire.outcomes == Consume(old(wire.outcomes))
    ensures var o := NextOutcome(old(wire.outcomes));
            && (o.Fail? ==> r == Err(o.error) && wire.replies == old(wire.replies))
            && (o.Pass? ==> r == CheckedTemperature(crc8, s.device, Fit(NextReply(old(wire.replies)), 9))
                            && wire.replies == Consume(old(wire.replies)))
  {
    var scratchpad := new byte[9](_ => 0);
    var read := wire.ResetSelectWriteRead(s.device, [CommandCode(ReadScratchpad)], scratchpad);
    if read.Fail? {
      return Err(read.error);
    }
    var check := EnsureCorrectCrc8(crc8, s.device, scratchpad[..8], scratchpad[8]);
    if check.Fail? {
      return Err(check.error);
    }
    r := Ok(TemperatureFromScratchpad(scratchpad[..]));
  }

  /// `start_measurement` of the `Sensor` implementation: the conversion time
  /// to wait for, in milliseconds.
  method StartMeasurement(s: DS18B20, wire: Wire) returns (r: Result<nat, Error>)
    modifies wire
    ensures wire.log == old(wire.log) + [Transaction(s.device, [0x44], 0)]
    ensures wire.outcomes == Consume(old(wire.outcomes)) && wire.replies == old(wire.replies)
    ensures var o := NextOutcome(old(wire.outcomes));
            r == if o.Pass? then Ok(TimeMs(s.resolution)) else Err(o.error)
  {
    var measured := MeasureTemperature(s, wire);
    if measured.Err? {
      return Err(measured.error);
    }
    r := Ok(TimeMs(measured.value));
  }

  /// `read_measurement` of the `Sensor` implementation.
  method ReadMeasurement(s: DS18B20, wire: Wire, crc8: seq<byte> -> byte) returns (r: Result<real, Error>)
    modifies wire
    ensures wire.log == old(wire.log) + [Transaction(s.device, [0xBE], 9)]
    ensures wire.outcomes == Consume(old(wire.outcomes))
    ensures var o := NextOutcome(old(wire.outcomes));
            && (o.Fail? ==> r == Err(o.error) && wire.replies == old(wire.replies))
            && (o.Pass? ==> r == CheckedTemperature(crc8, s.device, Fit(NextReply(old(wire.replies)), 9))
                            && wire.replies == Consume(old(wire.replies)))
  {
    r := ReadTemperature(s, wire, crc8);
  }
}
