/// The transaction-level bus interface that the DS18B20 driver of
/// `src/ds18b20.rs` relies on: `Device`, `Error`, the composite
/// reset + select + write (+ read) transactions and the CRC-8 check of a
/// payload seeded with a device address.
///
/// These belong to a later revision of the bus master than the register-level
/// transport in module `OneWire`, and their bodies are not part of this model.
/// They are modelled here by what their call sites rely on: a `Wire` whose
/// transactions succeed or fail as a script says, whose reads receive
/// scripted bytes, and which records every transaction it issues.
module Bus {
  import opened Wrappers

  /// A byte, as a number: this layer does arithmetic on bytes (little-endian
  /// words, checksums) rather than the bit manipulation of the transport.
  type byte = b: int | 0 <= b < 256

  /// A 64-bit ROM address: byte 0 is the family code.
  type Address = a: seq<byte> | |a| == 8 witness [0, 0, 0, 0, 0, 0, 0, 0]

  /// A device on the bus, identified by its ROM address.
  datatype Device = Device(address: Address)

  /// The errors of the bus layer.
  datatype Error =
    | WireNotHigh
    | CrcMismatch(computed: byte, expected: byte)
    | FamilyCodeMismatch(expected: byte, actual: byte)
    | PortError

  /// A reset + select of `device` + write of `data`, followed by a read of
  /// `readLen` bytes (none for a write-only transaction).
  datatype Transaction = Transaction(device: Device, data: seq<byte>, readLen: nat)

  /// The scripted result of the next transaction; past the end of the script
  /// every transaction succeeds.
  function NextOutcome(outcomes: seq<Outcome<Error>>): (o: Outcome<Error>)
    ensures |outcomes| == 0 ==> o == Pass
    ensures |outcomes| > 0 ==> o == outcomes[0]
  {
    if |outcomes| == 0 then Pass else outcomes[0]
  }

  /// The script after one transaction has used its entry.
  function Consume<T>(script: seq<T>): (rest: seq<T>)
    ensures |script| > 0 ==> script == [script[0]] + rest
    ensures |script| == 0 ==> rest == []
  {
    if |script| == 0 then [] else script[1..]
  }

  /// The scripted bytes the next read receives; a bus with no device
  /// answering reads all ones.
  function NextReply(replies: seq<seq<byte>>): seq<byte>
  {
    if |replies| == 0 then [] else replies[0]
  }

  /// What a read of `n` bytes receives when the devices send `reply`: the
  /// first `n` bytes sent, and 0xFF (an undriven, pulled-up line) past the end.
  function Fit(reply: seq<byte>, n: nat): (got: seq<byte>)
    ensures |got| == n
    ensures forall i :: 0 <= i < n && i < |reply| ==> got[i] == reply[i]
    ensures forall i :: |reply| <= i < n ==> got[i] == 0xFF
  {
    if n == 0 then []
    else Fit(reply, n - 1) + [if n - 1 < |reply| then reply[n - 1] else 0xFF]
  }

  /// The CRC check of `ensure_correct_rcr8`: `crc8` is the CRC-8 routine of the
  /// bus layer, applied to the device's address followed by the payload. The
  /// check passes exactly when the computed value equals `expected`, and
  /// otherwise reports both values.
  function EnsureCorrectCrc8(crc8: seq<byte> -> byte, device: Device, data: seq<byte>, expected: byte): (r: Outcome<Error>)
    ensures r.Pass? <==> crc8(device.address + data) == expected
    ensures r.Fail? ==> r.error == CrcMismatch(crc8(device.address + data), expected)
                        && r.error.computed != expected
  {
    var computed := crc8(device.address + data);
    if computed != expected then Fail(CrcMismatch(computed, expected)) else Pass
  }

  /// The bus master as the sensor driver sees it.
  class Wire {
    /// Scripted result of each coming transaction, in order.
    var outcomes: seq<Outcome<Error>>
    /// Scripted bytes received by each coming successful read, in order.
    var replies: seq<seq<byte>>
    /// Every transaction issued so far, oldest first.
    var log: seq<Transaction>

    constructor (outcomes: seq<Outcome<Error>>, replies: seq<seq<byte>>)
      ensures this.outcomes == outcomes && this.replies == replies && log == []
    {
      this.outcomes := outcomes;
      this.replies := replies;
      log := [];
    }

    /// `reset_select_write_only`: one reset + select of `device` + write of `data`.
    method ResetSelectWriteOnly(device: Device, data: seq<byte>) returns (r: Outcome<Error>)
      modifies this
      ensures r == NextOutcome(old(outcomes))
      ensures outcomes == Consume(old(outcomes)) && replies == old(replies)
      ensures log == old(log) + [Transaction(device, data, 0)]
    {
      r := NextOutcome(outcomes);
      outcomes := Consume(outcomes);
      log := log + [Transaction(device, data, 0)];
    }

    /// `reset_select_write_read`: one reset + select of `device` + write of
    /// `data`, then `buf` is filled with the bytes read. A failed transaction
    /// leaves `buf` as it was.
    method ResetSelectWriteRead(device: Device, data: seq<byte>, buf: array<byte>) returns (r: Outcome<Error>)
      modifies this, buf
      ensures r == NextOutcome(old(outcomes))
      ensures outcomes == Consume(old(outcomes))
      ensures r.Pass? ==> buf[..] == Fit(NextReply(old(replies)), buf.Length)
                          && replies == Consume(old(replies))
      ensures r.Fail? ==> buf[..] == old(buf[..]) && replies == old(replies)
      ensures log == old(log) + [Transaction(device, data, buf.Length)]
    {
      r := NextOutcome(outcomes);
      outcomes := Consume(outcomes);
      log := log + [Transaction(device, data, buf.Length)];
      if r.Pass? {
        var reply := NextReply(replies);
        var want := Fit(reply, buf.Length);
        replies := Consume(replies);
        for i := 0 to buf.Length
          modifies buf
          invariant buf[..i] == want[..i]
        {
          buf[i] := if i < |reply| then reply[i] else 0xFF;
        }
        assert buf[..] == buf[..buf.Length];
      }
    }
  }
}
