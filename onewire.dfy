/// The bit-banged 1-Wire bus master of `src/lib.rs`: one pin of an AVR port,
/// driven through the port's PIN (input latch), DDR (direction) and PORT
/// (output level) registers.
///
/// The registers are plain fields. The level of the line is an oracle: the
/// n-th time the pin is sampled it reads `Level(line, n)`. `delay_us` adds to a ghost
/// microsecond clock, and every register action is logged, with the clock at
/// that moment, in a ghost history, so that the timing of each slot can be
/// stated exactly.
module OneWire {
  import opened Wrappers

  type u8 = bv8

  /// The only error the transport raises: the idle line never read high.
  datatype OneWireError = WireNotHigh

  /// A register-level action on the pin.
  datatype Op = ToInput | ToOutput | PortLow | PortHigh | Sample

  /// An action together with the value of the microsecond clock when it happened.
  datatype Event = Event(at: nat, op: Op)

  /// A log of events, most recent last.
  datatype Log = Empty | Snoc(init: Log, last: Event)

  /// The events of a log, oldest first.
  ghost function Events(log: Log): seq<Event>
  {
    match log
    case Empty => []
    case Snoc(init, e) => Events(init) + [e]
  }

  // ---------------------------------------------------------------------------
  // Timing (microseconds)

  /// `ensure_wire_high` polls the idle line at most this often, pausing after each failed poll.
  function PollLimit(): nat { 125 }
  const PollPauseUs: nat := 2

  /// Reset pulse, wait before sampling for a presence pulse, and the rest of the
  /// reset slot: the standard-speed values H, I and J of Maxim Application Note 126.
  const ResetLowUs: nat := 480
  const PresenceWaitUs: nat := 70
  const ResetRecoveryUs: nat := 410

  /// Read slot: low pulse, wait before sampling, rest of the slot.
  const ReadLowUs: nat := 3
  const ReadSampleUs: nat := 10
  const ReadRecoveryUs: nat := 53
  const ReadSlotUs: nat := ReadLowUs + ReadSampleUs + ReadRecoveryUs

  /// A write slot holds the line low briefly for a 1 and for most of the slot for a 0 ...
  function LowUs(bit: bool): nat { if bit then 10 else 65 }

  /// ... and then drives it high for the rest of the slot.
  function HighUs(bit: bool): nat { if bit then 55 else 5 }

  function SlotUs(bit: bool): nat { LowUs(bit) + HighUs(bit) }

  /// Total length of the write slots for `bits`.
  function WriteTime(bits: seq<bool>): nat
    decreases |bits|
  {
    if bits == [] then 0 else WriteTime(bits[..|bits| - 1]) + SlotUs(bits[|bits| - 1])
  }

  lemma {:induction false} WriteTimeAppend(a: seq<bool>, b: seq<bool>)
    ensures WriteTime(a + b) == WriteTime(a) + WriteTime(b)
    decreases |b|
  {
    if b == [] {
      assert a + b == a;
    } else {
      var n := |b| - 1;
      assert (a + b)[..|a + b| - 1] == a + b[..n];
      WriteTimeAppend(a, b[..n]);
    }
  }

  /// Every write slot lasts 65 µs (a 1) or 70 µs (a 0).
  lemma {:induction false} WriteTimeBounds(bits: seq<bool>)
    ensures 65 * |bits| <= WriteTime(bits) <= 70 * |bits|
    ensures (forall k :: 0 <= k < |bits| ==> bits[k]) ==> WriteTime(bits) == 65 * |bits|
    decreases |bits|
  {
    if bits != [] {
      var n := |bits| - 1;
      WriteTimeBounds(bits[..n]);
    }
  }

  // ---------------------------------------------------------------------------
  // Register bits

  /// The pin's bit in its port's registers. The source demands `pin_no < 8`:
  /// a larger shift of a u8 overflows.
  function Mask(pinNo: nat): (m: u8)
    requires pinNo < 8
    ensures m != 0 && m & (m - 1) == 0
    ensures m >> pinNo == 1
  {
    0x01 << pinNo
  }

  /// The register with the masked bits cleared, every other bit as it was.
  function ClearBit(reg: u8, mask: u8): (r: u8)
    ensures r & mask == 0
    ensures r & !mask == reg & !mask
  {
    reg & !mask
  }

  /// The register with the masked bits set, every other bit as it was.
  function SetBit(reg: u8, mask: u8): (r: u8)
    ensures r & mask == mask
    ensures r & !mask == reg & !mask
  {
    reg | mask
  }

  /// The PIN register after the hardware latched the line level into the pin's bit.
  function Latch(reg: u8, mask: u8, level: bool): (r: u8)
    requires mask != 0
    ensures (r & mask == mask) == level
    ensures r & !mask == reg & !mask
  {
    if level then reg | mask else reg & !mask
  }

  lemma ClearAfterSet(reg: u8, mask: u8)
    ensures ClearBit(SetBit(reg, mask), mask) == ClearBit(reg, mask)
  {}

  lemma SetAfterClear(reg: u8, mask: u8)
    ensures SetBit(ClearBit(reg, mask), mask) == SetBit(reg, mask)
  {}

  lemma ClearTwice(reg: u8, mask: u8)
    ensures ClearBit(ClearBit(reg, mask), mask) == ClearBit(reg, mask)
  {}

  lemma SetTwice(reg: u8, mask: u8)
    ensures SetBit(SetBit(reg, mask), mask) == SetBit(reg, mask)
  {}

  // ---------------------------------------------------------------------------
  // Bits and bytes

  function Pow2(n: nat): (p: nat)
    ensures p >= 1
  {
    if n == 0 then 1 else 2 * Pow2(n - 1)
  }

  lemma {:induction false} Pow2Add(a: nat, b: nat)
    ensures Pow2(a + b) == Pow2(a) * Pow2(b)
    decreases a
  {
    if a > 0 {
      Pow2Add(a - 1, b);
    }
  }

  /// Bit k of a byte.
  predicate Bit(b: u8, k: nat)
    requires k < 8
  {
    (b >> k) & 1 == 1
  }

  /// The bits of a byte in the order `write_byte` puts them on the wire: least significant first.
  function LsbBits(b: u8): (bits: seq<bool>)
    ensures |bits| == 8
  {
    seq(8, k requires 0 <= k < 8 => Bit(b, k))
  }

  /// The number whose binary digits, least significant first, are `bits`.
  function LsbValue(bits: seq<bool>): (v: nat)
    ensures v < Pow2(|bits|)
    decreases |bits|
  {
    if bits == [] then 0 else (if bits[0] then 1 else 0) + 2 * LsbValue(bits[1..])
  }

  /// The number whose binary digits, most significant first, are `bits`.
  function MsbValue(bits: seq<bool>): (v: nat)
    ensures v < Pow2(|bits|)
    decreases |bits|
  {
    if bits == [] then 0
    else 2 * MsbValue(bits[..|bits| - 1]) + (if bits[|bits| - 1] then 1 else 0)
  }

  /// The bits `write` puts on the wire for a sequence of bytes: byte after byte,
  /// each least significant bit first.
  function WireBits(bytes: seq<u8>): (bits: seq<bool>)
    ensures |bits| == 8 * |bytes|
    decreases |bytes|
  {
    if bytes == [] then [] else WireBits(bytes[..|bytes| - 1]) + LsbBits(bytes[|bytes| - 1])
  }

  /// Bit `k` of byte `i` is the `8 * i + k`-th bit on the wire.
  lemma {:induction false} WireBitsOrder(bytes: seq<u8>)
    ensures forall i, k :: 0 <= i < |bytes| && 0 <= k < 8 ==> WireBits(bytes)[8 * i + k] == Bit(bytes[i], k)
    decreases |bytes|
  {
    if bytes != [] {
      var n := |bytes| - 1;
      WireBitsOrder(bytes[..n]);
      forall i, k | 0 <= i < |bytes| && 0 <= k < 8
        ensures WireBits(bytes)[8 * i + k] == Bit(bytes[i], k)
      {
        if i < n {
          assert WireBits(bytes)[8 * i + k] == WireBits(bytes[..n])[8 * i + k];
        } else {
          assert WireBits(bytes)[8 * i + k] == LsbBits(bytes[n])[k];
        }
      }
    }
  }

  /// The level of the line at sample `n`: the scripted level while the script
  /// lasts, then high, as the pull-up resistor leaves an idle bus.
  predicate Level(line: seq<bool>, n: nat)
  {
    n >= |line| || line[n]
  }

  /// The levels seen by `n` consecutive samples starting with sample `start`.
  function Samples(line: seq<bool>, start: nat, n: nat): (s: seq<bool>)
    ensures |s| == n
  {
    seq(n, k requires 0 <= k < n => Level(line, start + k))
  }

  lemma BitSplit(b: u8, n: nat)
    requires n < 8
    ensures (b >> n) as int == (if Bit(b, n) then 1 else 0) + 2 * (b >> (n + 1)) as int
  {
    var x := b >> n;
    assert x >> 1 == b >> (n + 1);
    assert ((x & 1) == 1) == Bit(b, n);
    assert x as int == (x & 1) as int + 2 * (x >> 1) as int;
  }

  lemma MsbValueSnoc(bits: seq<bool>, b: bool)
    ensures MsbValue(bits + [b]) == 2 * MsbValue(bits) + (if b then 1 else 0)
  {
    assert (bits + [b])[..|bits|] == bits;
  }

  lemma SamplesSnoc(line: seq<bool>, start: nat, n: nat)
    ensures Samples(line, start, n + 1) == Samples(line, start, n) + [Level(line, start + n)]
  {}

  lemma ShiftLeftOr(x: u8, bit: bool)
    requires x < 128
    ensures ((x << 1) | (if bit then 0x01 else 0x00)) as int == 2 * x as int + (if bit then 1 else 0)
  {}

  lemma ShiftRightHalf(x: u8)
    ensures (x >> 1) as int == x as int / 2 && x >> 1 < 128
  {}

  lemma OrTopBit(x: u8)
    requires x < 128
    ensures (x | 0x80) as int == x as int + 128
  {}

  /// `b` shifted right `i` times by one place.
  function Shr(b: u8, i: nat): u8
  {
    if i == 0 then b else Shr(b, i - 1) >> 1
  }

  lemma {:induction false} ShrIsShift(b: u8, i: nat)
    requires i <= 8
    ensures Shr(b, i) == b >> i
  {
    if i > 0 {
      ShrIsShift(b, i - 1);
      ShiftStep(b, i - 1);
    }
  }

  /// One step of `write_byte`: the low bit of the byte shifted `i` times is bit
  /// `i`, and shifting once more gives the byte shifted `i + 1` times.
  lemma ShrStep(b: u8, i: nat, byte: u8)
    requires i < 8 && byte == Shr(b, i)
    ensures ((byte & 0x01) == 0x01) == Bit(b, i)
    ensures byte >> 1 == Shr(b, i + 1)
  {
    ShrIsShift(b, i);
    ShiftStep(b, i);
  }

  lemma ShiftStep(b: u8, i: nat)
    requires i < 8
    ensures (b >> i) >> 1 == b >> (i + 1)
    ensures ((b >> i) & 0x01 == 0x01) == Bit(b, i)
  {}

  lemma {:induction false} LsbValueAppend(bits: seq<bool>, b: bool)
    ensures LsbValue(bits + [b]) == LsbValue(bits) + (if b then Pow2(|bits|) else 0)
    decreases |bits|
  {
    if bits == [] {
      assert [b][1..] == [];
    } else {
      assert (bits + [b])[1..] == bits[1..] + [b];
      LsbValueAppend(bits[1..], b);
    }
  }

  lemma {:induction false} LsbBitsSuffixValue(b: u8, n: nat)
    requires n <= 8
    ensures LsbValue(LsbBits(b)[n..]) == (b >> n) as int
    decreases 8 - n
  {
    if n == 8 {
      assert LsbBits(b)[n..] == [];
      assert b >> 8 == 0;
    } else {
      assert LsbBits(b)[n..][1..] == LsbBits(b)[n + 1..];
      LsbBitsSuffixValue(b, n + 1);
      BitSplit(b, n);
    }
  }

  /// Round trip: a byte sent least significant bit first and reassembled least
  /// significant bit first is the byte itself.
  lemma LsbRoundTrip(b: u8)
    ensures LsbValue(LsbBits(b)) == b as int
  {
    LsbBitsSuffixValue(b, 0);
    assert LsbBits(b)[0..] == LsbBits(b);
  }

  /// The read as written reverses the bit order: a device that sends 0x01 (a 1,
  /// then seven 0s) is read as 0x80, while a least-significant-first read gives 0x01.
  lemma MsbFirstReadReversesByte()
    ensures LsbBits(0x01) == [true, false, false, false, false, false, false, false]
    ensures MsbValue(LsbBits(0x01)) == 0x80
    ensures LsbValue(LsbBits(0x01)) == 0x01
  {
    var bits := LsbBits(0x01);
    assert bits == [true, false, false, false, false, false, false, false];
    var prefix: seq<bool> := [];
    MsbValueSnoc(prefix, true);
    prefix := prefix + [true];
    for k := 1 to 8
      invariant prefix == bits[..k]
      invariant MsbValue(prefix) == Pow2(k - 1)
    {
      MsbValueSnoc(prefix, false);
      assert bits[..k + 1] == prefix + [false];
      prefix := prefix + [false];
    }
    assert prefix == bits;
    LsbRoundTrip(0x01);
  }

  /// `bits` in the opposite order.
  function Reversed(bits: seq<bool>): (r: seq<bool>)
    ensures |r| == |bits|
    decreases |bits|
  {
    if bits == [] then [] else [bits[|bits| - 1]] + Reversed(bits[..|bits| - 1])
  }

  /// For every run of bits, assembling it most significant bit first gives the
  /// number whose least significant bit is the last bit read: the read as
  /// written is the least-significant-first read of the bits reversed.
  lemma {:induction false} MsbValueIsReversedLsbValue(bits: seq<bool>)
    ensures MsbValue(bits) == LsbValue(Reversed(bits))
    decreases |bits|
  {
    if bits != [] {
      var n := |bits| - 1;
      MsbValueIsReversedLsbValue(bits[..n]);
      assert Reversed(bits)[1..] == Reversed(bits[..n]);
    }
  }

  // ---------------------------------------------------------------------------
  // Timing of the pin's actions, as ghost event logs
  //
  // Each function below extends a log `h` with the events of one action
  // started at time `t`, in the order the master performs them.

  /// `n` polls of the idle line, `PollPauseUs` apart.
  ghost function Polls(h: Log, t: nat, n: nat): Log
  {
    if n == 0 then h else Snoc(Polls(h, t, n - 1), Event(t + PollPauseUs * (n - 1), Sample))
  }

  /// The reset pulse: drive low, release after 480 µs, sample 70 µs later.
  ghost function ResetPulse(h: Log, t: nat): Log
  {
    Snoc(Snoc(Snoc(Snoc(h,
      Event(t, PortLow)),
      Event(t, ToOutput)),
      Event(t + ResetLowUs, ToInput)),
      Event(t + ResetLowUs + PresenceWaitUs, Sample))
  }

  /// A read slot: drive low for 3 µs, release, sample 10 µs later.
  ghost function ReadSlot(h: Log, t: nat): Log
  {
    Snoc(Snoc(Snoc(Snoc(h,
      Event(t, ToOutput)),
      Event(t, PortLow)),
      Event(t + ReadLowUs, ToInput)),
      Event(t + ReadLowUs + ReadSampleUs, Sample))
  }

  /// `n` consecutive read slots.
  ghost function ReadSlots(h: Log, t: nat, n: nat): Log
  {
    if n == 0 then h else ReadSlot(ReadSlots(h, t, n - 1), t + ReadSlotUs * (n - 1))
  }

  lemma {:induction false} ReadSlotsSplit(h: Log, t: nat, m: nat, n: nat)
    ensures ReadSlots(h, t, m + n) == ReadSlots(ReadSlots(h, t, m), t + ReadSlotUs * m, n)
    decreases n
  {
    if n > 0 {
      ReadSlotsSplit(h, t, m, n - 1);
      assert t + ReadSlotUs * (m + n - 1) == t + ReadSlotUs * m + ReadSlotUs * (n - 1);
    }
  }

  /// A write slot: drive low, drive high `LowUs(bit)` later.
  ghost function WriteSlot(h: Log, t: nat, bit: bool): Log
  {
    Snoc(Snoc(Snoc(h,
      Event(t, PortLow)),
      Event(t, ToOutput)),
      Event(t + LowUs(bit), PortHigh))
  }

  /// Consecutive write slots for `bits`.
  ghost function WriteSlots(h: Log, t: nat, bits: seq<bool>): Log
    decreases |bits|
  {
    if bits == [] then h
    else
      var n := |bits| - 1;
      WriteSlot(WriteSlots(h, t, bits[..n]), t + WriteTime(bits[..n]), bits[n])
  }

  /// Releasing the line: input mode, then the PORT bit low.
  ghost function Release(h: Log, t: nat): Log
  {
    Snoc(Snoc(h, Event(t, ToInput)), Event(t, PortLow))
  }

  /// A log together with the clock reading at which it ends.
  datatype Trace = Trace(log: Log, now: nat)

  /// The trace `tr` followed by the write slots of the first `i` bits of `b`,
  /// least significant first, each starting when the one before it ends.
  ghost function ByteSlots(tr: Trace, b: u8, i: nat): Trace
    requires i <= 8
  {
    if i == 0 then tr
    else
      var before := ByteSlots(tr, b, i - 1);
      var bit := Bit(b, i - 1);
      Trace(WriteSlot(before.log, before.now, bit), before.now + SlotUs(bit))
  }

  /// One byte written, the line released afterwards unless `parasite`.
  ghost function ByteWrite(tr: Trace, b: u8, parasite: bool): Trace
  {
    var slots := ByteSlots(tr, b, 8);
    if parasite then slots else Trace(Release(slots.log, slots.now), slots.now)
  }

  /// The first `n` bytes written one after another, each released afterwards.
  ghost function BytesWrite(tr: Trace, bytes: seq<u8>, n: nat): Trace
    requires n <= |bytes|
  {
    if n == 0 then tr else ByteWrite(BytesWrite(tr, bytes, n - 1), bytes[n - 1], false)
  }

  /// What a responder reads from a run of write slots when it samples the line
  /// `sampleAt` µs after each falling edge: a 1 when the master has already
  /// driven the line high again by then, a 0 when the line is still low.
  ghost function Received(slots: seq<Event>, sampleAt: nat): seq<bool>
    decreases |slots|
  {
    if |slots| < 3 then []
    else [slots[2].at <= slots[0].at + sampleAt] + Received(slots[3..], sampleAt)
  }

  lemma {:induction false} ReceivedAppend(a: seq<Event>, b: seq<Event>, sampleAt: nat)
    requires |a| % 3 == 0
    ensures Received(a + b, sampleAt) == Received(a, sampleAt) + Received(b, sampleAt)
    decreases |a|
  {
    if a == [] {
      assert a + b == b;
    } else {
      assert (a + b)[3..] == a[3..] + b;
      ReceivedAppend(a[3..], b, sampleAt);
    }
  }

  lemma EventsWriteSlot(h: Log, t: nat, bit: bool)
    ensures Events(WriteSlot(h, t, bit)) ==
      Events(h) + [Event(t, PortLow), Event(t, ToOutput), Event(t + LowUs(bit), PortHigh)]
  {
    var a, b, c := Event(t, PortLow), Event(t, ToOutput), Event(t + LowUs(bit), PortHigh);
    var e := Events(h);
    assert Events(Snoc(h, a)) == e + [a];
    assert Events(Snoc(Snoc(h, a), b)) == e + [a] + [b];
    assert Events(WriteSlot(h, t, bit)) == e + [a] + [b] + [c];
    assert e + [a] + [b] + [c] == e + [a, b, c];
  }

  /// A responder that samples anywhere from 15 µs to 60 µs after the falling
  /// edge of each slot reads back exactly the bits that were written, in order.
  lemma {:induction false} WriteSlotsReceived(t: nat, bits: seq<bool>, sampleAt: nat)
    requires 15 <= sampleAt <= 60
    ensures |Events(WriteSlots(Empty, t, bits))| == 3 * |bits|
    ensures Received(Events(WriteSlots(Empty, t, bits)), sampleAt) == bits
    decreases |bits|
  {
    if bits != [] {
      var n := |bits| - 1;
      var before := Events(WriteSlots(Empty, t, bits[..n]));
      var u := t + WriteTime(bits[..n]);
      var slot := [Event(u, PortLow), Event(u, ToOutput), Event(u + LowUs(bits[n]), PortHigh)];
      WriteSlotsReceived(t, bits[..n], sampleAt);
      EventsWriteSlot(WriteSlots(Empty, t, bits[..n]), u, bits[n]);
      ReceivedAppend(before, slot, sampleAt);
      assert slot[3..] == [];
      assert bits == bits[..n] + [bits[n]];
    }
  }

  /// The events of write slots appended to a log are the log's events followed
  /// by the slots' own events.
  lemma {:induction false} EventsWriteSlots(h: Log, t: nat, bits: seq<bool>)
    ensures Events(WriteSlots(h, t, bits)) == Events(h) + Events(WriteSlots(Empty, t, bits))
    decreases |bits|
  {
    if bits != [] {
      var n := |bits| - 1;
      var u := t + WriteTime(bits[..n]);
      EventsWriteSlots(h, t, bits[..n]);
      EventsWriteSlot(WriteSlots(h, t, bits[..n]), u, bits[n]);
      EventsWriteSlot(WriteSlots(Empty, t, bits[..n]), u, bits[n]);
    }
  }

  // ---------------------------------------------------------------------------
  // Reset and the idle-line check, as functions of the line

  /// The index of the first high level among `n` samples from `start`, if any.
  function FirstHigh(line: seq<bool>, start: nat, n: nat): Option<nat>
    decreases n
  {
    if n == 0 then None
    else if Level(line, start) then Some(0)
    else match FirstHigh(line, start + 1, n - 1)
      case None => None
      case Some(k) => Some(k + 1)
  }

  /// `FirstHigh` finds a high sample exactly when there is one, and it is the first.
  lemma {:induction false} FirstHighSpec(line: seq<bool>, start: nat, n: nat)
    ensures FirstHigh(line, start, n).Some? ==>
      FirstHigh(line, start, n).value < n && Level(line, start + FirstHigh(line, start, n).value)
    ensures FirstHigh(line, start, n).Some? ==>
      forall j :: start <= j < start + FirstHigh(line, start, n).value ==> !Level(line, j)
    ensures FirstHigh(line, start, n).None? ==> forall j :: start <= j < start + n ==> !Level(line, j)
    decreases n
  {
    if n > 0 && !Level(line, start) {
      FirstHighSpec(line, start + 1, n - 1);
    }
  }

  /// The first high sample is the one all earlier samples precede low.
  lemma {:induction false} FirstHighAt(line: seq<bool>, start: nat, n: nat, i: nat)
    requires i < n && Level(line, start + i)
    requires forall j :: start <= j < start + i ==> !Level(line, j)
    ensures FirstHigh(line, start, n) == Some(i)
    decreases n
  {
    if i > 0 {
      FirstHighAt(line, start + 1, n - 1, i - 1);
    }
  }

  /// No high sample among `n` low samples.
  lemma {:induction false} FirstHighNone(line: seq<bool>, start: nat, n: nat)
    requires forall j :: start <= j < start + n ==> !Level(line, j)
    ensures FirstHigh(line, start, n) == None
    decreases n
  {
    if n > 0 {
      FirstHighNone(line, start + 1, n - 1);
    }
  }

  /// One more low sample keeps the line without a high sample.
  lemma {:induction false} FirstHighLow(line: seq<bool>, start: nat, n: nat)
    requires FirstHigh(line, start, n) == None && !Level(line, start + n)
    ensures FirstHigh(line, start, n + 1) == None
    decreases n
  {
    if n > 0 {
      FirstHighLow(line, start + 1, n - 1);
    }
  }

  /// A high sample after `n` low ones is the first high sample of any longer run.
  lemma {:induction false} FirstHighFound(line: seq<bool>, start: nat, n: nat, m: nat)
    requires FirstHigh(line, start, n) == None && n < m && Level(line, start + n)
    ensures FirstHigh(line, start, m) == Some(n)
    decreases n
  {
    if n > 0 {
      FirstHighFound(line, start + 1, n - 1, m - 1);
    }
  }

  /// The result of `reset` when its first sample is sample `start`.
  function ResetResult(line: seq<bool>, start: nat): Result<bool, OneWireError>
  {
    match FirstHigh(line, start, PollLimit())
    case None => Err(WireNotHigh)
    case Some(k) => Ok(!Level(line, start + k + 1))
  }

  /// `ResetResult` once the first high poll is known.
  lemma ResetResultAfter(line: seq<bool>, start: nat, first: Option<nat>)
    requires first == FirstHigh(line, start, PollLimit())
    ensures first.None? ==> ResetResult(line, start) == Err(WireNotHigh)
    ensures first.Some? ==> ResetResult(line, start) == Ok(!Level(line, start + first.value + 1))
  {
  }

  /// `reset` fails with WireNotHigh exactly when all 125 polls read low;
  /// otherwise it reports a presence pulse when the line is low at the sample
  /// that follows the first high poll.
  lemma ResetResultSpec(line: seq<bool>, start: nat)
    ensures ResetResult(line, start).Err? <==> forall k :: start <= k < start + PollLimit() ==> !Level(line, k)
    ensures ResetResult(line, start).Err? ==> ResetResult(line, start).error == WireNotHigh
    ensures ResetResult(line, start).Ok? ==>
      exists k :: (start <= k < start + PollLimit() && Level(line, k)
                   && (forall j :: start <= j < k ==> !Level(line, j))
                   && ResetResult(line, start).value == !Level(line, k + 1))
  {
    FirstHighSpec(line, start, PollLimit());
    var first := FirstHigh(line, start, PollLimit());
    if first.Some? {
      var k := start + first.value;
      assert start <= k < start + PollLimit() && Level(line, k);
    }
  }

  /// A bus whose line is stuck low fails the reset with WireNotHigh.
  lemma ResetStuckLow(line: seq<bool>, start: nat)
    requires forall k :: start <= k < start + PollLimit() ==> !Level(line, k)
    ensures ResetResult(line, start) == Err(WireNotHigh)
  {
    FirstHighNone(line, start, PollLimit());
  }

  /// A bus that reads high and has no responder pulling it low reports no presence.
  lemma ResetWithoutResponder(line: seq<bool>, start: nat)
    requires Level(line, start) && Level(line, start + 1)
    ensures ResetResult(line, start) == Ok(false)
  {
    FirstHighAt(line, start, PollLimit(), 0);
  }

  // ---------------------------------------------------------------------------
  // The bus master

  class OneWire {
    /// DDR and PORT registers of the pin's port; the program writes them.
    var ddr: u8
    var port: u8

    /// The levels of the port's other pins as its PIN register reports them.
    /// The program never writes PIN: reading it returns these bits, with the
    /// pin's own bit latched from the line.
    const pin: u8

    const pinNo: nat
    const mask: u8
    const parasiteMode: bool

    /// The n-th sample of the line reads `Level(line, n)`; `samples` samples have been taken.
    const line: seq<bool>
    var samples: nat

    /// Microseconds of delay requested so far, and every register action with its time.
    ghost var clock: nat
    ghost var history: Log

    ghost predicate Valid()
    {
      pinNo < 8 && mask == Mask(pinNo)
    }

    /// A master on pin `pinNo` of a port whose registers currently hold `pin`, `ddr` and `port`.
    constructor (pinNo: nat, parasiteMode: bool, pin: u8, ddr: u8, port: u8, line: seq<bool>)
      requires pinNo < 8
      ensures Valid()
      ensures this.pinNo == pinNo && this.parasiteMode == parasiteMode && this.line == line
      ensures this.pin == pin && this.ddr == ddr && this.port == port
      ensures samples == 0 && clock == 0 && history == Empty
    {
      this.pinNo := pinNo;
      this.mask := 0x01 << pinNo;
      this.parasiteMode := parasiteMode;
      this.line := line;
      this.pin, this.ddr, this.port := pin, ddr, port;
      samples, clock, history := 0, 0, Empty;
    }

    /// Input mode: clear the pin's DDR bit.
    method SetInputMode()
      modifies this`ddr, this`history
      ensures ddr == ClearBit(old(ddr), mask)
      ensures history == Snoc(old(history), Event(clock, ToInput))
    {
      ddr := ddr & !mask;
      history := Snoc(history, Event(clock, ToInput));
    }

    /// Output mode: set the pin's DDR bit.
    method SetOutputMode()
      modifies this`ddr, this`history
      ensures ddr == SetBit(old(ddr), mask)
      ensures history == Snoc(old(history), Event(clock, ToOutput))
    {
      ddr := ddr | mask;
      history := Snoc(history, Event(clock, ToOutput));
    }

    /// Clear the pin's PORT bit.
    method WriteLow()
      modifies this`port, this`history
      ensures port == ClearBit(old(port), mask)
      ensures history == Snoc(old(history), Event(clock, PortLow))
    {
      port := port & !mask;
      history := Snoc(history, Event(clock, PortLow));
    }

    /// Set the pin's PORT bit.
    method WriteHigh()
      modifies this`port, this`history
      ensures port == SetBit(old(port), mask)
      ensures history == Snoc(old(history), Event(clock, PortHigh))
    {
      port := port | mask;
      history := Snoc(history, Event(clock, PortHigh));
    }

    /// Sample the line: read the PIN register, whose pin bit has latched the
    /// line level, and test that bit.
    method Read() returns (high: bool)
      requires Valid()
      modifies this`samples, this`history
      ensures high == Level(line, old(samples)) && samples == old(samples) + 1
      ensures history == Snoc(old(history), Event(clock, Sample))
    {
      var reg := Latch(pin, mask, Level(line, samples));
      samples := samples + 1;
      history := Snoc(history, Event(clock, Sample));
      high := reg & mask == mask;
    }

    /// Release the line: input mode and the PORT bit low.
    method DisableParasiteMode()
      modifies this`ddr, this`port, this`history
      ensures ddr == ClearBit(old(ddr), mask) && port == ClearBit(old(port), mask)
      ensures history == Release(old(history), clock)
    {
      SetInputMode();
      WriteLow();
    }

    /// Poll the idle line up to 125 times, 2 µs apart, until it reads high.
    method EnsureWireHigh() returns (r: Outcome<OneWireError>)
      requires Valid()
      modifies this`samples, this`clock, this`history
      ensures var first := FirstHigh(line, old(samples), PollLimit());
        && (r == Pass <==> first.Some?)
        && (r.Fail? ==> r.error == WireNotHigh)
        && samples == old(samples) + (if first.Some? then first.value + 1 else PollLimit())
        && clock == old(clock) + PollPauseUs * (if first.Some? then first.value else PollLimit())
        && history == Polls(old(history), old(clock), if first.Some? then first.value + 1 else PollLimit())
    {
      for i := 0 to PollLimit()
        invariant samples == old(samples) + i
        invariant clock == old(clock) + PollPauseUs * i
        invariant history == Polls(old(history), old(clock), i)
        invariant FirstHigh(line, old(samples), i) == None
      {
        var high := Read();
        assert history == Polls(old(history), old(clock), i + 1);
        if high {
          FirstHighFound(line, old(samples), i, PollLimit());
          return Pass;
        }
        FirstHighLow(line, old(samples), i);
        clock := clock + PollPauseUs;
      }
      return Fail(WireNotHigh);
    }

    /// The pulse of `reset` once the line is idle: drive it low for 480 µs,
    /// release it, sample it 70 µs later and wait out the remaining 410 µs.
    method ResetPulseAndSample() returns (level: bool)
      requires Valid()
      modifies this`ddr, this`port, this`samples, this`clock, this`history
      ensures level == Level(line, old(samples)) && samples == old(samples) + 1
      ensures ddr == ClearBit(old(ddr), mask) && port == ClearBit(old(port), mask)
      ensures clock == old(clock) + ResetLowUs + PresenceWaitUs + ResetRecoveryUs
      ensures history == ResetPulse(old(history), old(clock))
    {
      WriteLow();
      SetOutputMode();
      clock := clock + ResetLowUs;
      SetInputMode();
      clock := clock + PresenceWaitUs;
      level := Read();
      clock := clock + ResetRecoveryUs;
      ClearAfterSet(old(ddr), mask);
    }

    /// Reset pulse and presence detection: `Ok(true)` when a device pulled the
    /// line low after the pulse, `Ok(false)` when none did, and WireNotHigh
    /// when the idle line never read high.
    method Reset() returns (r: Result<bool, OneWireError>)
      requires Valid()
      modifies this`ddr, this`port, this`samples, this`clock, this`history
      ensures r == ResetResult(line, old(samples))
      ensures FirstHigh(line, old(samples), PollLimit()).None? ==>
        && samples == old(samples) + PollLimit()
        && clock == old(clock) + PollPauseUs * PollLimit()
        && ddr == ClearBit(old(ddr), mask) && port == old(port)
        && history == Polls(Snoc(old(history), Event(old(clock), ToInput)), old(clock), PollLimit())
      ensures FirstHigh(line, old(samples), PollLimit()).Some? ==>
        var k := FirstHigh(line, old(samples), PollLimit()).value;
        var t := old(clock) + PollPauseUs * k;
        && samples == old(samples) + k + 2
        && clock == t + ResetLowUs + PresenceWaitUs + ResetRecoveryUs
        && ddr == ClearBit(old(ddr), mask) && port == ClearBit(old(port), mask)
        && history == ResetPulse(Polls(Snoc(old(history), Event(old(clock), ToInput)), old(clock), k + 1), t)
    {
      SetInputMode();
      var idle := EnsureWireHigh();
      ghost var first := FirstHigh(line, old(samples), PollLimit());
      ResetResultAfter(line, old(samples), first);
      if idle.Fail? {
        return Err(idle.error);
      }
      var level := ResetPulseAndSample();
      ClearTwice(old(ddr), mask);
      return Ok(!level);
    }

    /// One read slot: drive low for 3 µs, release, sample 10 µs later, wait out the slot.
    method ReadBit() returns (bit: bool)
      requires Valid()
      modifies this`ddr, this`port, this`samples, this`clock, this`history
      ensures bit == Level(line, old(samples)) && samples == old(samples) + 1
      ensures ddr == ClearBit(old(ddr), mask) && port == ClearBit(old(port), mask)
      ensures clock == old(clock) + ReadSlotUs
      ensures history == ReadSlot(old(history), old(clock))
    {
      SetOutputMode();
      WriteLow();
      clock := clock + ReadLowUs;
      SetInputMode();
      clock := clock + ReadSampleUs;
      bit := Read();
      clock := clock + ReadRecoveryUs;
      ClearAfterSet(old(ddr), mask);
    }

    /// One write slot: drive low, drive high `LowUs(bit)` later, wait out the slot.
    method WriteBit(bit: bool)
      requires Valid()
      modifies this`ddr, this`port, this`clock, this`history
      ensures ddr == SetBit(old(ddr), mask) && port == SetBit(old(port), mask)
      ensures clock == old(clock) + SlotUs(bit)
      ensures history == WriteSlot(old(history), old(clock), bit)
    {
      WriteLow();
      SetOutputMode();
      clock := clock + LowUs(bit);
      WriteHigh();
      clock := clock + HighUs(bit);
      SetAfterClear(old(port), mask);
    }

    /// Read eight bits and assemble them as written: shift left, then put the
    /// new bit in bit 0, so the first bit read ends in bit 7.
    method ReadByteMsbFirst() returns (byte: u8)
      requires Valid()
      modifies this`ddr, this`port, this`samples, this`clock, this`history
      ensures byte as int == MsbValue(Samples(line, old(samples), 8))
      ensures samples == old(samples) + 8
      ensures ddr == ClearBit(old(ddr), mask) && port == ClearBit(old(port), mask)
      ensures clock == old(clock) + 8 * ReadSlotUs
      ensures history == ReadSlots(old(history), old(clock), 8)
    {
      byte := 0;
      for i := 0 to 8
        invariant samples == old(samples) + i
        invariant byte as int == MsbValue(Samples(line, old(samples), i))
        invariant clock == old(clock) + ReadSlotUs * i
        invariant history == ReadSlots(old(history), old(clock), i)
        invariant i > 0 ==> ddr == ClearBit(old(ddr), mask) && port == ClearBit(old(port), mask)
        invariant i == 0 ==> ddr == old(ddr) && port == old(port)
      {
        ghost var shifted := byte;
        byte := byte << 1;
        var bit := ReadBit();
        byte := byte | if bit then 0x01 else 0x00;
        MsbReadStep(line, old(samples), i, shifted, byte);
        assert history == ReadSlots(old(history), old(clock), i + 1);
        if i > 0 {
          ClearTwice(old(ddr), mask);
          ClearTwice(old(port), mask);
        }
      }
    }

    /// Read eight bits least significant first: shift right, then put the new
    /// bit in bit 7, so the first bit read ends in bit 0.
    method ReadByte() returns (byte: u8)
      requires Valid()
      modifies this`ddr, this`port, this`samples, this`clock, this`history
      ensures byte as int == LsbValue(Samples(line, old(samples), 8))
      ensures samples == old(samples) + 8
      ensures ddr == ClearBit(old(ddr), mask) && port == ClearBit(old(port), mask)
      ensures clock == old(clock) + 8 * ReadSlotUs
      ensures history == ReadSlots(old(history), old(clock), 8)
    {
      byte := 0;
      for i := 0 to 8
        invariant samples == old(samples) + i
        invariant byte as int == LsbValue(Samples(line, old(samples), i)) * Pow2(8 - i)
        invariant clock == old(clock) + ReadSlotUs * i
        invariant history == ReadSlots(old(history), old(clock), i)
        invariant i > 0 ==> ddr == ClearBit(old(ddr), mask) && port == ClearBit(old(port), mask)
        invariant i == 0 ==> ddr == old(ddr) && port == old(port)
      {
        ghost var shifted := byte;
        byte := byte >> 1;
        var bit := ReadBit();
        if bit {
          byte := byte | 0x80;
        }
        LsbReadStep(line, old(samples), i, shifted, byte);
        assert history == ReadSlots(old(history), old(clock), i + 1);
        if i > 0 {
          ClearTwice(old(ddr), mask);
          ClearTwice(old(port), mask);
        }
      }
    }

    /// Fill `dst` byte by byte, in index order.
    method ReadBytes(dst: array<u8>)
      requires Valid()
      modifies this`ddr, this`port, this`samples, this`clock, this`history, dst
      ensures samples == old(samples) + 8 * dst.Length
      ensures forall i :: 0 <= i < dst.Length ==>
        dst[i] as int == LsbValue(Samples(line, old(samples) + 8 * i, 8))
      ensures clock == old(clock) + 8 * ReadSlotUs * dst.Length
      ensures history == ReadSlots(old(history), old(clock), 8 * dst.Length)
      ensures dst.Length > 0 ==> ddr == ClearBit(old(ddr), mask) && port == ClearBit(old(port), mask)
      ensures dst.Length == 0 ==> ddr == old(ddr) && port == old(port)
    {
      for i := 0 to dst.Length
        invariant samples == old(samples) + 8 * i
        invariant forall j :: 0 <= j < i ==> dst[j] as int == LsbValue(Samples(line, old(samples) + 8 * j, 8))
        invariant clock == old(clock) + 8 * ReadSlotUs * i
        invariant history == ReadSlots(old(history), old(clock), 8 * i)
        invariant i > 0 ==> ddr == ClearBit(old(ddr), mask) && port == ClearBit(old(port), mask)
        invariant i == 0 ==> ddr == old(ddr) && port == old(port)
      {
        var b := ReadByte();
        dst[i] := b;
        ReadSlotsSplit(old(history), old(clock), 8 * i, 8);
        if i > 0 {
          ClearTwice(old(ddr), mask);
          ClearTwice(old(port), mask);
        }
      }
    }

    /// `read_bytes` as written: fill `dst` in index order with the read as
    /// written, so each byte holds its first sample in bit 7.
    method ReadBytesMsbFirst(dst: array<u8>)
      requires Valid()
      modifies this`ddr, this`port, this`samples, this`clock, this`history, dst
      ensures samples == old(samples) + 8 * dst.Length
      ensures forall i :: 0 <= i < dst.Length ==>
        dst[i] as int == MsbValue(Samples(line, old(samples) + 8 * i, 8))
      ensures clock == old(clock) + 8 * ReadSlotUs * dst.Length
      ensures history == ReadSlots(old(history), old(clock), 8 * dst.Length)
      ensures dst.Length > 0 ==> ddr == ClearBit(old(ddr), mask) && port == ClearBit(old(port), mask)
      ensures dst.Length == 0 ==> ddr == old(ddr) && port == old(port)
    {
      for i := 0 to dst.Length
        invariant samples == old(samples) + 8 * i
        invariant forall j :: 0 <= j < i ==> dst[j] as int == MsbValue(Samples(line, old(samples) + 8 * j, 8))
        invariant clock == old(clock) + 8 * ReadSlotUs * i
        invariant history == ReadSlots(old(history), old(clock), 8 * i)
        invariant i > 0 ==> ddr == ClearBit(old(ddr), mask) && port == ClearBit(old(port), mask)
        invariant i == 0 ==> ddr == old(ddr) && port == old(port)
      {
        var b := ReadByteMsbFirst();
        dst[i] := b;
        ReadSlotsSplit(old(history), old(clock), 8 * i, 8);
        if i > 0 {
          ClearTwice(old(ddr), mask);
          ClearTwice(old(port), mask);
        }
      }
    }

    /// Send the eight bits of `b` least significant first, then release the
    /// line unless `parasite` asks to keep driving it.
    method WriteByte(b: u8, parasite: bool)
      requires Valid()
      modifies this`ddr, this`port, this`clock, this`history
      ensures Trace(history, clock) == ByteWrite(Trace(old(history), old(clock)), b, parasite)
      ensures parasite ==> ddr == SetBit(old(ddr), mask) && port == SetBit(old(port), mask)
      ensures !parasite ==> ddr == ClearBit(old(ddr), mask) && port == ClearBit(old(port), mask)
    {
      var byte := b;
      for i := 0 to 8
        invariant byte == Shr(b, i)
        invariant Trace(history, clock) == ByteSlots(Trace(old(history), old(clock)), b, i)
        invariant i > 0 ==> ddr == SetBit(old(ddr), mask) && port == SetBit(old(port), mask)
        invariant i == 0 ==> ddr == old(ddr) && port == old(port)
      {
        var bit := (byte & 0x01) == 0x01;
        ShrStep(b, i, byte);
        WriteBit(bit);
        byte := byte >> 1;
        if i > 0 {
          SetTwice(old(ddr), mask);
          SetTwice(old(port), mask);
        }
      }
      if !parasite {
        DisableParasiteMode();
        ClearAfterSet(old(ddr), mask);
        ClearAfterSet(old(port), mask);
      }
    }

    /// Send every byte in order, each released afterwards; then release the
    /// line once more unless the bus is in parasite mode.
    method Write(bytes: seq<u8>)
      requires Valid()
      modifies this`ddr, this`port, this`clock, this`history
      ensures var sent := BytesWrite(Trace(old(history), old(clock)), bytes, |bytes|);
        Trace(history, clock) == if parasiteMode then sent else Trace(Release(sent.log, sent.now), sent.now)
      ensures ddr == if |bytes| == 0 && parasiteMode then old(ddr) else ClearBit(old(ddr), mask)
      ensures port == if |bytes| == 0 && parasiteMode then old(port) else ClearBit(old(port), mask)
    {
      for i := 0 to |bytes|
        invariant Trace(history, clock) == BytesWrite(Trace(old(history), old(clock)), bytes, i)
        invariant ddr == if i == 0 then old(ddr) else ClearBit(old(ddr), mask)
        invariant port == if i == 0 then old(port) else ClearBit(old(port), mask)
      {
        WriteByte(bytes[i], false);
        if i > 0 {
          ClearTwice(old(ddr), mask);
          ClearTwice(old(port), mask);
        }
      }
      if !parasiteMode {
        DisableParasiteMode();
        if |bytes| > 0 {
          ClearTwice(old(ddr), mask);
          ClearTwice(old(port), mask);
        }
      }
    }
  }

  /// Writing bit `i` of `b` extends the slots of the first `i` bits by one slot
  /// that starts when they end.
  lemma ByteSlotStep(h: Log, t: nat, b: u8, i: nat)
    requires i < 8
    ensures WriteSlots(h, t, LsbBits(b)[..i + 1]) ==
      WriteSlot(WriteSlots(h, t, LsbBits(b)[..i]), t + WriteTime(LsbBits(b)[..i]), Bit(b, i))
    ensures WriteTime(LsbBits(b)[..i + 1]) == WriteTime(LsbBits(b)[..i]) + SlotUs(Bit(b, i))
  {
    assert LsbBits(b)[..i + 1][..i] == LsbBits(b)[..i];
  }

  lemma {:induction false} ByteSlotsAsBits(tr: Trace, b: u8, i: nat)
    requires i <= 8
    ensures ByteSlots(tr, b, i) ==
      Trace(WriteSlots(tr.log, tr.now, LsbBits(b)[..i]), tr.now + WriteTime(LsbBits(b)[..i]))
  {
    if i > 0 {
      ByteSlotsAsBits(tr, b, i - 1);
      ByteSlotStep(tr.log, tr.now, b, i - 1);
    }
  }

  /// All eight slots of a byte are the write slots of its bits.
  lemma ByteSlotsWhole(tr: Trace, b: u8)
    ensures ByteSlots(tr, b, 8) == Trace(WriteSlots(tr.log, tr.now, LsbBits(b)), tr.now + WriteTime(LsbBits(b)))
  {
    ByteSlotsAsBits(tr, b, 8);
    assert LsbBits(b)[..8] == LsbBits(b);
  }

  /// `write_byte` appends to any trace the events of the write slots of the
  /// byte's bits. A device that samples 15 to 60 µs after each falling edge
  /// reads from them the byte's bits least significant first, and assembled in
  /// that order they are the byte itself.
  lemma ByteWriteReceived(tr: Trace, b: u8, sampleAt: nat)
    requires 15 <= sampleAt <= 60
    ensures var slots := Events(WriteSlots(Empty, tr.now, LsbBits(b)));
      && Events(ByteSlots(tr, b, 8).log) == Events(tr.log) + slots
      && Received(slots, sampleAt) == LsbBits(b)
      && LsbValue(Received(slots, sampleAt)) == b as int
  {
    ByteSlotsWhole(tr, b);
    EventsWriteSlots(tr.log, tr.now, LsbBits(b));
    WriteSlotsReceived(tr.now, LsbBits(b), sampleAt);
    LsbRoundTrip(b);
  }

  lemma WireBitsSnoc(bytes: seq<u8>, n: nat)
    requires 0 < n <= |bytes|
    ensures WireBits(bytes[..n]) == WireBits(bytes[..n - 1]) + LsbBits(bytes[n - 1])
  {
    assert bytes[..n][..n - 1] == bytes[..n - 1];
  }

  /// The time `write` spends on the bus is the time of the write slots of the
  /// bits it puts on the wire.
  lemma {:induction false} BytesWriteTime(tr: Trace, bytes: seq<u8>, n: nat)
    requires n <= |bytes|
    ensures BytesWrite(tr, bytes, n).now == tr.now + WriteTime(WireBits(bytes[..n]))
  {
    if n > 0 {
      BytesWriteTime(tr, bytes, n - 1);
      WireBitsSnoc(bytes, n);
      WriteTimeAppend(WireBits(bytes[..n - 1]), LsbBits(bytes[n - 1]));
      ByteSlotsWhole(BytesWrite(tr, bytes, n - 1), bytes[n - 1]);
    }
  }

  /// Each byte keeps the bus busy for 520 µs (all ones) to 560 µs (all zeros).
  lemma BytesWriteTimeBounds(tr: Trace, bytes: seq<u8>)
    ensures tr.now + 520 * |bytes| <= BytesWrite(tr, bytes, |bytes|).now <= tr.now + 560 * |bytes|
  {
    BytesWriteTime(tr, bytes, |bytes|);
    WriteTimeBounds(WireBits(bytes[..|bytes|]));
  }

  /// One step of the least-significant-first read: shifting right and adding
  /// the new bit as bit 7 keeps the bits read so far in the top of the byte.
  lemma LsbReadStep(line: seq<bool>, start: nat, i: nat, shifted: u8, byte: u8)
    requires i < 8
    requires shifted as int == LsbValue(Samples(line, start, i)) * Pow2(8 - i)
    requires byte == if Level(line, start + i) then (shifted >> 1) | 0x80 else shifted >> 1
    ensures byte as int == LsbValue(Samples(line, start, i + 1)) * Pow2(8 - (i + 1))
  {
    var before := Samples(line, start, i);
    var bit := Level(line, start + i);
    LsbShiftArith(shifted, byte, LsbValue(before), i, bit);
    LsbValueAppend(before, bit);
    SamplesSnoc(line, start, i);
  }

  /// The arithmetic behind one step: with `v` the value of the `i` bits read so
  /// far kept in the top of the byte, the shifted byte holds `v` plus the new bit
  /// as digit `i`, one position lower.
  lemma LsbShiftArith(shifted: u8, byte: u8, v: nat, i: nat, bit: bool)
    requires i < 8
    requires shifted as int == v * Pow2(8 - i)
    requires byte == if bit then (shifted >> 1) | 0x80 else shifted >> 1
    ensures byte as int == (v + if bit then Pow2(i) else 0) * Pow2(7 - i)
  {
    var p := Pow2(7 - i);
    var q := v * p;
    assert shifted as int == 2 * q by {
      assert Pow2(8 - i) == 2 * p;
      MulTwice(v, p);
    }
    ShiftRightHalf(shifted);
    HalfOfDouble(shifted as int, q);
    if bit {
      OrTopBit(shifted >> 1);
      Pow2Add(i, 7 - i);
      assert i + (7 - i) == 7;
      assert Pow2(i) * p == 128;
      assert (v + Pow2(i)) * p == q + Pow2(i) * p;
    }
  }

  lemma MulTwice(v: int, p: int)
    ensures v * (2 * p) == 2 * (v * p)
  {}

  lemma HalfOfDouble(x: int, y: int)
    requires x == 2 * y
    ensures x / 2 == y
  {}

  /// One step of the read as written: shifting left and adding the new bit as
  /// bit 0 appends it as the least significant digit.
  lemma MsbReadStep(line: seq<bool>, start: nat, i: nat, shifted: u8, byte: u8)
    requires i < 8
    requires shifted as int == MsbValue(Samples(line, start, i))
    requires byte == (shifted << 1) | (if Level(line, start + i) then 0x01 else 0x00)
    ensures byte as int == MsbValue(Samples(line, start, i + 1))
  {
    Pow2AtMost128(i);
    ShiftLeftOr(shifted, Level(line, start + i));
    SamplesSnoc(line, start, i);
    MsbValueSnoc(Samples(line, start, i), Level(line, start + i));
  }

  lemma Pow2AtMost128(i: nat)
    requires i <= 7
    ensures Pow2(i) <= 128
  {
    Pow2Add(i, 7 - i);
  }
}
