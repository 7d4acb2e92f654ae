/** The I2C bus the driver talks to, as a scripted collaborator.

    The transport itself (a native library) is not modelled; in its place a
    script says, in order, what the bus answers to each byte read, each byte
    write and each block read, and a trace records every transaction issued,
    whether or not it succeeded. A script that has run out answers NoReply. */
module I2c {
  import opened Bytes
  import opened Results

  /** A 7-bit I2C device address. */
  type Address = a: int | 0 <= a <= 0x7f

  datatype BusError = BusError(code: int) | NoReply

  datatype Transaction =
    | ByteRead(address: Address, register: Byte)
    | ByteWrite(address: Address, register: Byte, value: Byte)
    | BlockRead(address: Address, register: Byte, length: nat)

  /** The bus's answers: to the byte reads, to the byte writes, and to the block reads
      (the bytes the device delivered, which may be fewer than asked for). */
  datatype Script = Script(
    bytes: seq<Result<Byte, BusError>>,
    acks: seq<Result<(), BusError>>,
    blocks: seq<Result<seq<Byte>, BusError>>)

  /** The bus as a value: its script, how much of each kind of answer was used, and
      the transactions issued so far. */
  datatype BusState = BusState(
    script: Script,
    byteReads: nat,
    writes: nat,
    blockReads: nat,
    trace: seq<Transaction>)

  /** A result together with the bus state after producing it. */
  datatype Step<+T> = Step(result: T, bus: BusState)

  function ByteReply(script: Script, i: nat): Result<Byte, BusError>
  {
    if i < |script.bytes| then script.bytes[i] else Err(NoReply)
  }

  function AckReply(script: Script, i: nat): Result<(), BusError>
  {
    if i < |script.acks| then script.acks[i] else Err(NoReply)
  }

  function BlockReply(script: Script, i: nat): Result<seq<Byte>, BusError>
  {
    if i < |script.blocks| then script.blocks[i] else Err(NoReply)
  }

  /** The buffer a block read leaves: the driver passes a zero-filled buffer of the
      requested length, the bytes received are copied to its front, and the count of
      bytes received is not looked at. */
  function Fill(length: nat, received: seq<Byte>): (buffer: seq<Byte>)
    ensures |buffer| == length
    ensures forall i :: 0 <= i < length ==>
      buffer[i] == if i < |received| then received[i] else 0
  {
    if |received| >= length then received[..length]
    else received + seq(length - |received|, _ => 0)
  }

  function ReadByteStep(s: BusState, address: Address, register: Byte): Step<Result<Byte, BusError>>
  {
    Step(ByteReply(s.script, s.byteReads),
         s.(byteReads := s.byteReads + 1, trace := s.trace + [ByteRead(address, register)]))
  }

  function WriteByteStep(s: BusState, address: Address, register: Byte, value: Byte): Step<Result<(), BusError>>
  {
    Step(AckReply(s.script, s.writes),
         s.(writes := s.writes + 1, trace := s.trace + [ByteWrite(address, register, value)]))
  }

  function ReadBlockStep(s: BusState, address: Address, register: Byte, length: nat): Step<Result<seq<Byte>, BusError>>
  {
    var reply := BlockReply(s.script, s.blockReads);
    Step(if reply.Ok? then Ok(Fill(length, reply.value)) else Err(reply.error),
         s.(blockReads := s.blockReads + 1, trace := s.trace + [BlockRead(address, register, length)]))
  }

  /** An open bus handle driven by a script. */
  class I2cBus {
    const script: Script
    var byteReads: nat
    var writes: nat
    var blockReads: nat
    var trace: seq<Transaction>

    function State(): BusState
      reads this
    {
      BusState(script, byteReads, writes, blockReads, trace)
    }

    constructor(script: Script)
      ensures State() == BusState(script, 0, 0, 0, [])
    {
      this.script := script;
      byteReads, writes, blockReads := 0, 0, 0;
      trace := [];
    }

    /** readByte(addr, register): the next scripted byte answer; one transaction logged. */
    method ReadByte(address: Address, register: Byte) returns (r: Result<Byte, BusError>)
      modifies this
      ensures r == ByteReply(script, old(byteReads))
      ensures byteReads == old(byteReads) + 1 && writes == old(writes) && blockReads == old(blockReads)
      ensures trace == old(trace) + [ByteRead(address, register)]
      ensures Step(r, State()) == ReadByteStep(old(State()), address, register)
    {
      r := ByteReply(script, byteReads);
      byteReads := byteReads + 1;
      trace := trace + [ByteRead(address, register)];
    }

    /** writeByte(addr, register, value): the next scripted acknowledgement; one transaction logged. */
    method WriteByte(address: Address, register: Byte, value: Byte) returns (r: Result<(), BusError>)
      modifies this
      ensures r == AckReply(script, old(writes))
      ensures writes == old(writes) + 1 && byteReads == old(byteReads) && blockReads == old(blockReads)
      ensures trace == old(trace) + [ByteWrite(address, register, value)]
      ensures Step(r, State()) == WriteByteStep(old(State()), address, register, value)
    {
      r := AckReply(script, writes);
      writes := writes + 1;
      trace := trace + [ByteWrite(address, register, value)];
    }

    /** readI2cBlock(addr, register, length, buffer) on a fresh zero-filled buffer: the
        buffer as the next scripted block answer leaves it; one transaction logged. */
    method ReadI2cBlock(address: Address, register: Byte, length: nat) returns (r: Result<seq<Byte>, BusError>)
      modifies this
      ensures var reply := BlockReply(script, old(blockReads));
        r == if reply.Ok? then Ok(Fill(length, reply.value)) else Err(reply.error)
      ensures r.Ok? ==> |r.value| == length
      ensures blockReads == old(blockReads) + 1 && byteReads == old(byteReads) && writes == old(writes)
      ensures trace == old(trace) + [BlockRead(address, register, length)]
      ensures Step(r, State()) == ReadBlockStep(old(State()), address, register, length)
    {
      var reply := BlockReply(script, blockReads);
      if reply.Ok? {
        r := Ok(Fill(length, reply.value));
      } else {
        r := Err(reply.error);
      }
      blockReads := blockReads + 1;
      trace := trace + [BlockRead(address, register, length)];
    }
  }
}
