# onewire: a Dafny model of the bit-banged 1-Wire master and the DS18B20 driver

This project models two parts of the `onewire` Rust crate.

- **`onewire.dfy` (module `OneWire`)** models the bit-banged 1-Wire bus master of `src/lib.rs`. This revision drives one pin of an AVR port through the port's PIN, DDR and PORT registers.
  - The class `OneWire.OneWire` holds the DDR and PORT registers as bytes the methods update in place. The PIN register is a constant for the port's other pins; the pin's own bit is latched from the line when it is read. It also holds the pin mask and the parasite-mode flag.
  - The level of the line is a script, `line`. The n-th sample reads `Level(line, n)`; past the end of the script the pulled-up bus reads high.
  - Every `delay_us` adds to a ghost microsecond `clock`. Every register action is recorded, with the clock at that moment, in a ghost `history`. The timing of each slot (reset pulse, read slot, write slot) is therefore stated exactly, as a function of the old history and clock.
  - The reset and presence sequence, the bounded idle-line check, bit and byte transport, buffer fill and the line state after a write are all methods. Where the source loops (`ensure_wire_high`, `read_byte`, `read_bytes`, `write_byte`, `write`) they carry loop invariants. Each is proved against specification functions, and the lemmas beside them state what those functions mean.
- **`ds18b20.dfy` (module `Ds18b20`)** models the DS18B20 driver of `src/ds18b20.rs`.
  - It covers the family code, the command bytes, the resolutions and their conversion times, and the checked and unchecked constructors.
  - It covers the two-phase measurement (start a conversion, then read the scratchpad, check its CRC and only then decode it).
  - It covers the little-endian two's-complement decoding of the raw temperature word.
- **`bus.dfy` (module `Bus`)** models the transaction-level bus interface the driver calls: `Device`, `Error`, `reset_select_write_only`, `reset_select_write_read` and `ensure_correct_rcr8`.
  - These belong to a later revision of the crate than the register-level master, and their bodies are not part of this model.
  - `Bus.Wire` states only what the call sites rely on. A transaction succeeds or fails as its script says. A successful read receives scripted bytes. Every transaction issued is recorded.
  - The CRC-8 routine is a parameter, applied to the device's address followed by the payload.
- **`wrappers.dfy` (module `Wrappers`)** holds `Option`, `Result` (Rust's `Result<T, E>`) and `Outcome` (Rust's `Result<(), E>`).

The timings are those of standard-speed 1-Wire: the 480/70/410 µs reset values are H, I and J of Maxim Application Note 126.

`reset` samples the line once, 70 µs after releasing it (src/lib.rs:57-60). The pin is reached through its port's PIN, DDR and PORT registers, at consecutive addresses (src/lib.rs:148-161).

## Model

| member | source | states |
|---|---|---|
| OneWire.Mask | src/lib.rs:28-34 | for `pin_no < 8` (a larger shift of a u8 overflows) the mask has exactly one bit set, and that bit is bit `pin_no` |
| OneWire.OneWire.constructor | src/lib.rs:28-34 | the master stores the port's registers, the parasite-mode flag and the mask `1 << pin_no`; nothing has been sampled or delayed yet |
| OneWire.ClearBit | src/lib.rs:163-176 | clearing with the mask zeroes the masked bit and keeps every other bit of the register |
| OneWire.SetBit | src/lib.rs:168-181 | setting with the mask sets the masked bit and keeps every other bit of the register |
| OneWire.Latch | src/lib.rs:183-186 | the PIN register after latching the line: its masked bit equals the line level, every other bit is unchanged |
| OneWire.OneWire.SetInputMode | src/lib.rs:163-166 | DDR loses the pin's bit (other bits unchanged); PORT and the line are untouched |
| OneWire.OneWire.SetOutputMode | src/lib.rs:168-171 | DDR gains the pin's bit (other bits unchanged); PORT and the line are untouched |
| OneWire.OneWire.WriteLow | src/lib.rs:173-176 | PORT loses the pin's bit (other bits unchanged); DDR is untouched |
| OneWire.OneWire.WriteHigh | src/lib.rs:178-181 | PORT gains the pin's bit (other bits unchanged); DDR is untouched |
| OneWire.OneWire.Read | src/lib.rs:183-186 | `read` is true iff the pin's bit of the latched PIN register is set, that is, iff the line is high at this sample; exactly one sample is taken |
| OneWire.OneWire.DisableParasiteMode | src/lib.rs:140-146 | the line is released: the DDR bit is cleared (input) and then the PORT bit, at the current time |
| OneWire.OneWire.EnsureWireHigh | src/lib.rs:66-76 | passes iff one of at most 125 polls reads high, and stops at the first such poll; it fails with WireNotHigh only when all 125 read low; 2 µs pass after each low poll (at most 250 µs) |
| OneWire.FirstHighSpec | src/lib.rs:66-76 | the poll `ensure_wire_high` stops at is high and every poll before it is low; when none is found, all polls were low |
| OneWire.ResetResultSpec | src/lib.rs:40-64 | `reset` fails, and only with WireNotHigh, exactly when all 125 idle polls read low; otherwise it reports presence iff the line is low at the sample after the first high poll |
| OneWire.ResetStuckLow | src/lib.rs:36-45 | a line stuck low makes `reset` return WireNotHigh |
| OneWire.ResetWithoutResponder | src/lib.rs:57-63 | a high idle line that no device pulls low after the pulse gives `Ok(false)` |
| OneWire.OneWire.ResetPulseAndSample | src/lib.rs:47-62 | PORT bit cleared and output mode at time t, input mode at t+480, one sample at t+550, and the clock ends at t+960; the pin ends in input mode with its PORT bit low |
| OneWire.OneWire.Reset | src/lib.rs:40-64 | the result is `ResetResult` of the line; the samples, clock, registers and register history are given exactly for the stuck-line path and for the pulse path |
| OneWire.OneWire.ReadBit | src/lib.rs:93-106 | one read slot: output mode and low at t, input at t+3, the single sample at t+13, the slot ends at t+66; the result is the line level at that sample |
| OneWire.OneWire.WriteBit | src/lib.rs:127-137 | one write slot: low and output at t, PORT high at t+10 for a 1 or t+65 for a 0, the slot ends at t+65 or t+70; the pin is left driven high |
| OneWire.WriteTimeBounds | src/lib.rs:127-137 | every write slot lasts 65 µs (a 1) or 70 µs (a 0), so n slots last between 65n and 70n µs |
| OneWire.WriteSlotsReceived | src/lib.rs:127-137 | a device that samples 15 to 60 µs after each falling edge reads back exactly the bits written, in order |
| OneWire.OneWire.ReadByteMsbFirst | src/lib.rs:84-91 | `read_byte` as written: the byte is the eight samples read as a binary number with the first sample as the most significant bit |
| OneWire.MsbFirstReadReversesByte | src/lib.rs:84-91 | the byte 0x01 sent least significant bit first is assembled as 0x80 by the read as written, and as 0x01 by a least-significant-first read |
| OneWire.MsbValueIsReversedLsbValue | src/lib.rs:84-91 | for every run of bits, the read as written gives the least-significant-first value of the bits in reverse order |
| OneWire.OneWire.ReadByte | src/lib.rs:84-91 | the corrected read: the byte is the eight samples with the first sample as bit 0; eight read slots, 528 µs |
| OneWire.LsbRoundTrip | src/lib.rs:117-121 | a byte's bits in `write_byte` order, assembled least significant first, give the byte back |
| OneWire.OneWire.ReadBytesMsbFirst | src/lib.rs:78-82 | `read_bytes` as written: `dst[i]` is the i-th group of eight samples assembled first sample most significant, for every index in order; the length of `dst` is unchanged; 8 read slots per byte |
| OneWire.OneWire.ReadBytes | src/lib.rs:78-82 | the corrected fill: `dst[i]` is the i-th group of eight samples assembled first sample least significant, for every index in order; the length of `dst` is unchanged; 8 read slots per byte |
| OneWire.OneWire.WriteByte | src/lib.rs:117-125 | the eight write slots of the byte's bits, least significant first and back to back, then the line is released unless in parasite mode; registers end released or driven high accordingly |
| OneWire.ByteSlotsWhole | src/lib.rs:117-121 | the slots `write_byte` produces are the write slots of `LsbBits(b)`, bit i in the i-th slot |
| OneWire.EventsWriteSlots | src/lib.rs:117-137 | write slots appended to any history add exactly their own events after it |
| OneWire.ByteWriteReceived | src/lib.rs:117-137 | after any history, a device sampling 15 to 60 µs into each slot of `write_byte` reads the byte's bits least significant first, which assemble to the byte |
| OneWire.WireBitsOrder | src/lib.rs:108-121 | on the wire, bit k of byte i is the (8i+k)-th bit sent |
| OneWire.OneWire.Write | src/lib.rs:108-115 | every byte written in order, each released afterwards; after a non-empty write the pin is in input mode with its PORT bit low whatever the parasite-mode flag |
| OneWire.BytesWriteTime | src/lib.rs:108-115 | `write` occupies the bus for exactly the write-slot time of the bits it sends |
| OneWire.BytesWriteTimeBounds | src/lib.rs:108-125 | each byte written takes between 520 µs (all ones) and 560 µs (all zeros) |
| Bus.EnsureCorrectCrc8 | src/ds18b20.rs:75 | the check passes iff the CRC-8 of address followed by payload equals the expected byte; otherwise it reports CrcMismatch with the expected byte and a different computed one |
| Bus.Wire.ResetSelectWriteOnly | src/ds18b20.rs:67-70 | one transaction to the given device with the given bytes is recorded, and its scripted outcome is returned |
| Bus.Wire.ResetSelectWriteRead | src/ds18b20.rs:72-74 | one transaction with a read as long as the buffer is recorded; on success the buffer holds the scripted reply, on failure it is untouched |
| Ds18b20.CommandCode | src/ds18b20.rs:14-21 | each command's byte decodes back to that command |
| Ds18b20.CommandOfCode | src/ds18b20.rs:14-21 | every byte that decodes to a command is that command's byte |
| Ds18b20.CommandCodesDistinct | src/ds18b20.rs:14-21 | the six command bytes are pairwise distinct |
| Ds18b20.ResolutionCode | src/ds18b20.rs:23-30 | the configuration byte holds the resolution minus 9 bits in bits 6..5 over five one bits, and decodes back to the resolution |
| Ds18b20.ResolutionCodesDistinct | src/ds18b20.rs:23-30 | the four resolution bytes are pairwise distinct |
| Ds18b20.TimeMs | src/ds18b20.rs:32-41 | the conversion time fits a u16 and is 750 ms halved per bit of resolution dropped, rounded up |
| Ds18b20.TimeMsIncreasing | src/ds18b20.rs:32-41 | a finer resolution has a strictly longer conversion time, and conversely |
| Ds18b20.New | src/ds18b20.rs:49-58 | succeeds iff address byte 0 is 0x28, then holds the device at 12-bit resolution; otherwise FamilyCodeMismatch(0x28, address byte 0) |
| Ds18b20.NewForced | src/ds18b20.rs:60-65 | never fails, keeps the device unchanged and uses 12-bit resolution |
| Ds18b20.NewIsCheckedNewForced | src/ds18b20.rs:49-65 | a successful checked construction gives what the unchecked one gives; it fails iff byte 0 differs from the sensor's family code |
| Ds18b20.SensorFamilyCode | src/ds18b20.rs:86-89 | the announced family code is 0x28, a code the checked constructor accepts |
| Ds18b20.ConstructedTimeMs | src/ds18b20.rs:49-65 | a sensor from either constructor announces 750 ms |
| Ds18b20.MeasureTemperature | src/ds18b20.rs:67-70 | exactly one transaction of the single byte 0x44 to the sensor's own device; the sensor's resolution on success, the wire's error otherwise |
| Ds18b20.StartMeasurement | src/ds18b20.rs:91-93 | the same transaction; on success the conversion time of the sensor's resolution |
| Ds18b20.ReadTemperature | src/ds18b20.rs:72-77 | exactly one transaction writing 0xBE and reading 9 bytes; a wire error is returned as is, otherwise the result is the CRC-checked decoding of the bytes read |
| Ds18b20.CheckedTemperature | src/ds18b20.rs:74-76 | the decoded temperature is returned iff the address-seeded CRC-8 of bytes 0..8 equals byte 8; otherwise CrcMismatch, with nothing decoded |
| Ds18b20.ReadMeasurement | src/ds18b20.rs:95-97 | the same as `read_temperature` |
| Ds18b20.LittleEndianU16 | src/ds18b20.rs:80 | the word's low byte is byte 0 and its high byte is byte 1 |
| Ds18b20.AsI16 | src/ds18b20.rs:81 | `as i16` gives the one value in [-32768, 32767] congruent to the word modulo 2^16 |
| Ds18b20.RawTemperature | src/ds18b20.rs:79-81 | the raw word is in the i16 range and is negative iff byte 1 is at least 0x80 |
| Ds18b20.DecodeEncodeRaw | src/ds18b20.rs:79-81 | every i16 value is the raw temperature of its two little-endian bytes |
| Ds18b20.EncodeDecodeRaw | src/ds18b20.rs:79-81 | the raw temperature determines bytes 0 and 1 of the scratchpad |
| Ds18b20.TemperatureFromScratchpad | src/ds18b20.rs:79-83 | the temperature times 16 is the raw word, so it lies in [-2048, 2048) |

## Left out

- The memory-mapped register access (`pin()`, `ddr()`, `port()`, `src/lib.rs:148-161`) is left out. The registers are fields of the class, and the pointer arithmetic and volatile accesses are not modelled.
- The `DisableInterrupts` guards are left out. Masking interrupts is about concurrency, and the model is sequential.
- Real time is left out. `delay_us` is a ghost clock that adds up the requested microseconds; how long the CPU takes between register actions is not modelled.
- The line is a script, not a circuit. Past the end of the script it reads high (the pull-up), and the devices' own timing is not modelled.
- OneWire.Mask: `pin_no >= 8` is excluded by its precondition, and no pin of an 8-bit port has such a number. There the source's `0x01 << pin_no` on a u8 overflows: a debug build panics, and a release build masks the shift amount, giving `0x01 << (pin_no & 7)`.
- Floating point is left out. `read_temperature_from_scratchpad` returns an f32; the model returns the exact real number raw/16. This agrees with the f32 result, because every i16 and its sixteenth are exact in f32.
- The bodies of `reset_select_write_only`, `reset_select_write_read`, `ensure_correct_rcr8`, `Device` and `Error` are not part of this model.
  - Bus.Wire.ResetSelectWriteOnly: records one transaction instead of the reset, Match ROM and data bytes on the wire, because its body is not part of this model.
  - Bus.Wire.ResetSelectWriteRead: the same, and it assumes a failed transaction leaves the buffer untouched.
  - Bus.EnsureCorrectCrc8: the CRC-8 routine is a parameter. Its table and polynomial are not part of this model.
- Not part of this model: the device search, the CRC-8 table, `split_temp`, the textual address format and `examples/embassy_rp2040/src/main.rs` (async executor, logging and retry loop).
- The `Sensor` trait itself is not modelled, because traits are not used here. Its three members are modelled as functions and methods over a `DS18B20` value.

## Findings

| source | as written | input that shows it | evidently intended | confidence | as-written member | corrected member |
|---|---|---|---|---|---|---|
| src/lib.rs:84-91 | `read_byte` shifts the byte left and puts each new bit in bit 0, so the first bit read ends in bit 7 | a device sends 0x01 least significant bit first (a 1, then seven 0s); `read_byte` returns 0x80 | least significant bit first, matching `write_byte` and 1-Wire byte order, so 0x01 is read as 0x01 | not executed; high | OneWire.MsbFirstReadReversesByte | OneWire.OneWire.ReadByte |
| src/lib.rs:78-82 | `read_bytes` fills each element with the `read_byte` above, so every byte of the buffer is bit-reversed | samples 1,0,0,0,0,0,0,0 for a one-byte buffer; `read_bytes` stores 0x80 | each element holds the byte the device sent, 0x01 here | not executed; high | OneWire.OneWire.ReadBytesMsbFirst | OneWire.OneWire.ReadBytes |

`OneWire.OneWire.ReadByteMsbFirst` is the read as written; `OneWire.MsbFirstReadReversesByte` exhibits the reversed byte, and `OneWire.MsbValueIsReversedLsbValue` states the reversal for every input. `OneWire.OneWire.ReadBytesMsbFirst` is the buffer fill as written. The corrected `OneWire.OneWire.ReadBytes` uses the corrected `OneWire.OneWire.ReadByte`, whose round trip with `write_byte`'s bit order is `OneWire.LsbRoundTrip`.
