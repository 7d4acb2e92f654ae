/** The driver's bus protocol as functions of the bus state: each function says
    what one operation of Bme280I2c answers and what it leaves on the bus, the
    recursive ones following the recursive promise chains of the source. The
    lemmas state what the protocol promises: how many attempts each retry loop
    makes, which answer ends it, and in which order initialization talks to the
    device. */
module Protocol {
  import opened Bytes
  import opened Results
  import opened Registers
  import opened I2c
  import opened Calibration
  import opened AdcReadout
  import opened Settings

  datatype Error =
    | Transport(busError: BusError)  // a rejection of the bus, passed on unchanged
    | WrongChipId(chipId: Byte)      // "Expected bme280 chip id to be 0x60, got chip id 0x.."
    | ImageRegisterUpdateFailed      // "Image register update failed"
    | NoCoefficients                 // compensation before any coefficients were read (a TypeError)

  datatype Outcome = Pass | Fail(error: Error)

  /** The default `tries` of checkChipId and of waitForImageRegisterUpdate. */
  const CHIP_ID_TRIES: int := 5
  const IMAGE_UPDATE_TRIES: int := 5

  /** How many reads a retry loop started with `tries` may make: the first read always happens. */
  function Attempts(tries: int): (n: nat)
    ensures n >= 1 && n >= tries
  {
    if tries > 1 then tries else 1
  }

  /** n copies of one transaction. */
  function Repeat(t: Transaction, n: nat): (r: seq<Transaction>)
    ensures |r| == n && forall i :: 0 <= i < n ==> r[i] == t
  {
    seq(n, _ => t)
  }

  /** The k-th byte answer the bus gives from state s on. */
  function ByteReplyAt(s: BusState, k: nat): (reply: Result<Byte, BusError>)
  {
    ByteReply(s.script, s.byteReads + k)
  }

  /** The byte the k-th byte read from state s on delivers, or 0 if that read fails. */
  function ByteValueAt(s: BusState, k: nat): (b: Byte)
    ensures ByteReplyAt(s, k).Ok? ==> b == ByteReplyAt(s, k).value
  {
    var reply := ByteReplyAt(s, k);
    if reply.Ok? then reply.value else 0
  }

  function FromAck(ack: Result<(), BusError>): (o: Outcome)
    ensures o.Pass? == ack.Ok?
  {
    if ack.Ok? then Pass else Fail(Transport(ack.error))
  }

  // ---------------------------------------------------------------- checkChipId

  /** One attempt of checkChipId: a read error and a wrong chip id both fail it. */
  function ChipIdVerdict(reply: Result<Byte, BusError>): (o: Outcome)
    ensures o == Pass <==> reply == Ok(CHIP_ID)
    ensures reply.Err? ==> o == Fail(Transport(reply.error))
    ensures reply.Ok? && reply.value != CHIP_ID ==> o == Fail(WrongChipId(reply.value))
  {
    match reply
    case Err(e) => Fail(Transport(e))
    case Ok(chipId) => if chipId == CHIP_ID then Pass else Fail(WrongChipId(chipId))
  }

  /** checkChipId(tries): read the chip id; on any failure retry while tries > 1. */
  function CheckChipId(s: BusState, address: Address, tries: int): (r: Step<Outcome>)
    ensures s.byteReads < r.bus.byteReads <= s.byteReads + Attempts(tries)
    ensures r.bus.script == s.script && r.bus.writes == s.writes && r.bus.blockReads == s.blockReads
    ensures r.result.Fail? ==> r.result.error.Transport? || r.result.error.WrongChipId?
    decreases Attempts(tries)
  {
    var read := ReadByteStep(s, address, CHIP_ID_REG);
    var verdict := ChipIdVerdict(read.result);
    if verdict.Fail? && tries > 1 then CheckChipId(read.bus, address, tries - 1)
    else Step(verdict, read.bus)
  }

  /** checkChipId makes between one and Attempts(tries) reads of the chip id register
      and nothing else. */
  lemma {:induction false} CheckChipIdReads(s: BusState, address: Address, tries: int)
    ensures var r := CheckChipId(s, address, tries);
      var n := r.bus.byteReads - s.byteReads;
      1 <= n <= Attempts(tries) &&
      r.bus == s.(byteReads := s.byteReads + n,
                  trace := s.trace + Repeat(ByteRead(address, CHIP_ID_REG), n))
    decreases Attempts(tries)
  {
    var read := ReadByteStep(s, address, CHIP_ID_REG);
    if ChipIdVerdict(read.result).Fail? && tries > 1 {
      CheckChipIdReads(read.bus, address, tries - 1);
      var m := CheckChipId(read.bus, address, tries - 1).bus.byteReads - read.bus.byteReads;
      var t := ByteRead(address, CHIP_ID_REG);
      assert [t] + Repeat(t, m) == Repeat(t, m + 1);
      assert s.trace + [t] + Repeat(t, m) == s.trace + ([t] + Repeat(t, m));
    } else {
      assert Repeat(ByteRead(address, CHIP_ID_REG), 1) == [ByteRead(address, CHIP_ID_REG)];
    }
  }

  /** checkChipId stops at the first attempt that finds the chip id; every earlier attempt
      failed, it answers what its last attempt found, and it fails only after using
      every attempt, with the last attempt's error. */
  lemma {:induction false} CheckChipIdOutcome(s: BusState, address: Address, tries: int)
    ensures var r := CheckChipId(s, address, tries);
      var n := r.bus.byteReads - s.byteReads;
      1 <= n <= Attempts(tries) &&
      (forall k :: 0 <= k < n - 1 ==> ChipIdVerdict(ByteReplyAt(s, k)).Fail?) &&
      r.result == ChipIdVerdict(ByteReplyAt(s, n - 1)) &&
      (r.result.Fail? ==> n == Attempts(tries))
    decreases Attempts(tries)
  {
    CheckChipIdReads(s, address, tries);
    var read := ReadByteStep(s, address, CHIP_ID_REG);
    if ChipIdVerdict(read.result).Fail? && tries > 1 {
      CheckChipIdOutcome(read.bus, address, tries - 1);
      var r := CheckChipId(read.bus, address, tries - 1);
      var m := r.bus.byteReads - read.bus.byteReads;
      forall k | 0 <= k < m
        ensures ChipIdVerdict(ByteReplyAt(s, k)).Fail?
      {
        if k > 0 {
          assert ByteReplyAt(s, k) == ByteReplyAt(read.bus, k - 1);
        }
      }
      assert ByteReplyAt(s, m) == ByteReplyAt(read.bus, m - 1);
    }
  }

  /** checkChipId succeeds exactly when one of its Attempts(tries) reads returns 0x60. */
  lemma {:induction false} CheckChipIdSucceeds(s: BusState, address: Address, tries: int)
    ensures CheckChipId(s, address, tries).result == Pass <==>
      exists k :: 0 <= k < Attempts(tries) && ByteReplyAt(s, k) == Ok(CHIP_ID)
  {
    CheckChipIdOutcome(s, address, tries);
    var r := CheckChipId(s, address, tries);
    var n := r.bus.byteReads - s.byteReads;
    if r.result == Pass {
      assert ByteReplyAt(s, n - 1) == Ok(CHIP_ID);
    } else {
      forall k | 0 <= k < Attempts(tries) ensures ByteReplyAt(s, k) != Ok(CHIP_ID) {
        if k < n - 1 {
          assert ChipIdVerdict(ByteReplyAt(s, k)).Fail?;
        } else {
          assert k == n - 1;
        }
      }
    }
  }

  // ---------------------------------------------------------------- softReset

  /** softReset: write the reset command; nothing is read back. */
  function SoftReset(s: BusState, address: Address): (r: Step<Outcome>)
    ensures r.bus == s.(writes := s.writes + 1,
                        trace := s.trace + [ByteWrite(address, RESET_REG, SOFT_RESET_COMMAND)])
    ensures r.result.Pass? <==> AckReply(s.script, s.writes).Ok?
    ensures r.result.Fail? ==> r.result.error == Transport(AckReply(s.script, s.writes).error)
  {
    var write := WriteByteStep(s, address, RESET_REG, SOFT_RESET_COMMAND);
    Step(FromAck(write.result), write.bus)
  }

  // ---------------------------------------------------------------- waitForImageRegisterUpdate

  /** Bit 0 of the status register, im_update: set while NVM data are being copied. */
  predicate ImageUpdating(status: Byte)
  {
    Bits(status) & IM_UPDATE_BIT != 0
  }

  lemma ImageUpdatingIsOdd(status: Byte)
    ensures ImageUpdating(status) <==> status % 2 == 1
  {
    OddBit(Bits(status));
  }

  lemma OddBit(b: bv8)
    ensures (b & 1 != 0) <==> (b as int) % 2 == 1
  {
  }

  /** A status answer that says the copy is still in progress. */
  predicate Busy(reply: Result<Byte, BusError>)
  {
    reply.Ok? && ImageUpdating(reply.value)
  }

  /** waitForImageRegisterUpdate(tries): read the status register; while im_update is set
      and tries - 1 > 0, read again; a read error ends the wait at once. */
  function WaitForImageRegisterUpdate(s: BusState, address: Address, tries: int): (r: Step<Outcome>)
    ensures s.byteReads < r.bus.byteReads <= s.byteReads + Attempts(tries)
    ensures r.bus.script == s.script && r.bus.writes == s.writes && r.bus.blockReads == s.blockReads
    ensures r.result.Fail? ==> r.result.error.Transport? || r.result.error == ImageRegisterUpdateFailed
    decreases Attempts(tries)
  {
    var read := ReadByteStep(s, address, STATUS_REG);
    match read.result
    case Err(e) => Step(Fail(Transport(e)), read.bus)
    case Ok(status) =>
      if !ImageUpdating(status) then Step(Pass, read.bus)
      else if tries - 1 > 0 then WaitForImageRegisterUpdate(read.bus, address, tries - 1)
      else Step(Fail(ImageRegisterUpdateFailed), read.bus)
  }

  /** The wait makes between one and Attempts(tries) reads of the status register and
      nothing else. */
  lemma {:induction false} WaitReads(s: BusState, address: Address, tries: int)
    ensures var r := WaitForImageRegisterUpdate(s, address, tries);
      var n := r.bus.byteReads - s.byteReads;
      1 <= n <= Attempts(tries) &&
      r.bus == s.(byteReads := s.byteReads + n,
                  trace := s.trace + Repeat(ByteRead(address, STATUS_REG), n))
    decreases Attempts(tries)
  {
    var read := ReadByteStep(s, address, STATUS_REG);
    if Busy(read.result) && tries - 1 > 0 {
      WaitReads(read.bus, address, tries - 1);
      var m := WaitForImageRegisterUpdate(read.bus, address, tries - 1).bus.byteReads - read.bus.byteReads;
      var t := ByteRead(address, STATUS_REG);
      assert [t] + Repeat(t, m) == Repeat(t, m + 1);
      assert s.trace + [t] + Repeat(t, m) == s.trace + ([t] + Repeat(t, m));
    } else {
      assert Repeat(ByteRead(address, STATUS_REG), 1) == [ByteRead(address, STATUS_REG)];
    }
  }

  /** Every read but the last found im_update set; the last read decides: a read error
      fails the wait with that error (it is not retried), a clear bit passes it, and a
      set bit fails it with ImageRegisterUpdateFailed, which happens only on the last
      of the Attempts(tries) reads. */
  lemma {:induction false} WaitOutcome(s: BusState, address: Address, tries: int)
    ensures var r := WaitForImageRegisterUpdate(s, address, tries);
      var n := r.bus.byteReads - s.byteReads;
      1 <= n <= Attempts(tries) &&
      (forall k :: 0 <= k < n - 1 ==> Busy(ByteReplyAt(s, k))) &&
      var last := ByteReplyAt(s, n - 1);
      (last.Err? ==> r.result == Fail(Transport(last.error))) &&
      (last.Ok? && !ImageUpdating(last.value) ==> r.result == Pass) &&
      (Busy(last) ==> n == Attempts(tries) && r.result == Fail(ImageRegisterUpdateFailed))
    decreases Attempts(tries)
  {
    WaitReads(s, address, tries);
    var read := ReadByteStep(s, address, STATUS_REG);
    if Busy(read.result) && tries - 1 > 0 {
      WaitOutcome(read.bus, address, tries - 1);
      var r := WaitForImageRegisterUpdate(read.bus, address, tries - 1);
      var m := r.bus.byteReads - read.bus.byteReads;
      forall k | 0 <= k < m
        ensures Busy(ByteReplyAt(s, k))
      {
        if k > 0 {
          assert ByteReplyAt(s, k) == ByteReplyAt(read.bus, k - 1);
        }
      }
      assert ByteReplyAt(s, m) == ByteReplyAt(read.bus, m - 1);
    }
  }

  /** The wait times out exactly when all Attempts(tries) status reads find im_update set. */
  lemma {:induction false} WaitTimesOut(s: BusState, address: Address, tries: int)
    ensures WaitForImageRegisterUpdate(s, address, tries).result == Fail(ImageRegisterUpdateFailed) <==>
      forall k :: 0 <= k < Attempts(tries) ==> Busy(ByteReplyAt(s, k))
  {
    WaitOutcome(s, address, tries);
    var r := WaitForImageRegisterUpdate(s, address, tries);
    var n := r.bus.byteReads - s.byteReads;
    var last := ByteReplyAt(s, n - 1);
    if r.result == Fail(ImageRegisterUpdateFailed) {
      assert Busy(last);
      forall k | 0 <= k < Attempts(tries) ensures Busy(ByteReplyAt(s, k)) {
        if k < n - 1 {
        } else {
          assert k == n - 1;
        }
      }
    }
    if forall k :: 0 <= k < Attempts(tries) ==> Busy(ByteReplyAt(s, k)) {
      assert Busy(last);
    }
  }

  // ---------------------------------------------------------------- readCoefficients

  /** readCoefficients: block 0x88 (26 bytes), then block 0xE1 (7 bytes), then the parse. */
  function ReadCoefficients(s: BusState, address: Address): (r: Step<Result<Coefficients, Error>>)
    ensures r.result.Err? ==> r.result.error.Transport?
    ensures r.bus.script == s.script && r.bus.byteReads == s.byteReads && r.bus.writes == s.writes
    ensures s.blockReads < r.bus.blockReads <= s.blockReads + 2
    ensures r.result.Ok? ==> r.bus.blockReads == s.blockReads + 2
  {
    var tp := ReadBlockStep(s, address, TP_COEFFICIENT_REGS, TP_COEFFICIENT_REGS_LEN);
    if tp.result.Err? then Step(Err(Transport(tp.result.error)), tp.bus)
    else
      var h := ReadBlockStep(tp.bus, address, H_COEFFICIENT_REGS, H_COEFFICIENT_REGS_LEN);
      if h.result.Err? then Step(Err(Transport(h.result.error)), h.bus)
      else Step(Ok(ParseCoefficients(tp.result.value, h.result.value)), h.bus)
  }

  /** The bytes a block answer delivers: none when the read failed. */
  function Delivered(reply: Result<seq<Byte>, BusError>): (bytes: seq<Byte>)
    ensures reply.Ok? ==> bytes == reply.value
    ensures reply.Err? ==> bytes == []
  {
    if reply.Ok? then reply.value else []
  }

  /** The two calibration buffers as the driver holds them after the block reads from s:
      zero-filled, with the bytes each read delivered at the front. */
  function CalibrationBlocks(s: BusState): (regs: CoefficientRegs)
    ensures |regs.tp| == TP_COEFFICIENT_REGS_LEN && |regs.h| == H_COEFFICIENT_REGS_LEN
  {
    CoefficientRegs(
      Fill(TP_COEFFICIENT_REGS_LEN, Delivered(BlockReply(s.script, s.blockReads))),
      Fill(H_COEFFICIENT_REGS_LEN, Delivered(BlockReply(s.script, s.blockReads + 1))))
  }

  /** The coefficient read succeeds exactly when both block reads do, and then parses the
      two buffers; it issues the second read only if the first succeeded. */
  lemma {:induction false} ReadCoefficientsOutcome(s: BusState, address: Address)
    ensures var r := ReadCoefficients(s, address);
      var both := BlockReply(s.script, s.blockReads).Ok? && BlockReply(s.script, s.blockReads + 1).Ok?;
      (r.result.Ok? <==> both) &&
      (BlockReply(s.script, s.blockReads).Err? ==>
        r.result == Err(Transport(BlockReply(s.script, s.blockReads).error))) &&
      (BlockReply(s.script, s.blockReads).Ok? && BlockReply(s.script, s.blockReads + 1).Err? ==>
        r.result == Err(Transport(BlockReply(s.script, s.blockReads + 1).error))) &&
      (both ==> r.result.value == ParseCoefficients(CalibrationBlocks(s).tp, CalibrationBlocks(s).h)) &&
      (BlockReply(s.script, s.blockReads).Err? ==>
        r.bus == s.(blockReads := s.blockReads + 1,
                    trace := s.trace + [BlockRead(address, TP_COEFFICIENT_REGS, TP_COEFFICIENT_REGS_LEN)])) &&
      (BlockReply(s.script, s.blockReads).Ok? ==>
        r.bus == s.(blockReads := s.blockReads + 2,
                    trace := s.trace + [BlockRead(address, TP_COEFFICIENT_REGS, TP_COEFFICIENT_REGS_LEN),
                                        BlockRead(address, H_COEFFICIENT_REGS, H_COEFFICIENT_REGS_LEN)]))
  {
  }

  // ---------------------------------------------------------------- failures

  /** The failure o is what the bus answered to the last transaction of b.trace. That
      answer is the latest of its kind, found through b's counters. A transaction whose
      answer is an error fails with that bus error; a chip id read that succeeds fails
      with the wrong id it returned; a status read that succeeds fails because im_update
      is still set. */
  predicate LastAnswerFails(b: BusState, o: Outcome)
  {
    |b.trace| > 0 &&
    match b.trace[|b.trace| - 1]
    case ByteRead(_, register) =>
      b.byteReads > 0 &&
      var reply := ByteReply(b.script, b.byteReads - 1);
      if reply.Err? then o == Fail(Transport(reply.error))
      else if register == CHIP_ID_REG then reply.value != CHIP_ID && o == Fail(WrongChipId(reply.value))
      else register == STATUS_REG && ImageUpdating(reply.value) && o == Fail(ImageRegisterUpdateFailed)
    case ByteWrite(_, _, _) =>
      b.writes > 0 && AckReply(b.script, b.writes - 1).Err? &&
      o == Fail(Transport(AckReply(b.script, b.writes - 1).error))
    case BlockRead(_, _, _) =>
      b.blockReads > 0 && BlockReply(b.script, b.blockReads - 1).Err? &&
      o == Fail(Transport(BlockReply(b.script, b.blockReads - 1).error))
  }

  // ---------------------------------------------------------------- configureSettings

  /** configureSettings: read-modify-write ctrl_hum, read-modify-write ctrl_meas, write config. */
  function ConfigureSettings(s: BusState, address: Address): (r: Step<Outcome>)
    ensures r.bus.script == s.script && r.bus.blockReads == s.blockReads
    ensures s.byteReads < r.bus.byteReads <= s.byteReads + 2 && r.bus.writes <= s.writes + 3
    ensures r.result.Fail? ==> r.result.error.Transport?
    ensures r.result.Pass? ==> r.bus.byteReads == s.byteReads + 2 && r.bus.writes == s.writes + 3
  {
    var hum := ReadByteStep(s, address, CTRL_HUM_REG);
    if hum.result.Err? then Step(Fail(Transport(hum.result.error)), hum.bus)
    else
      var w1 := WriteByteStep(hum.bus, address, CTRL_HUM_REG, CtrlHumValue(hum.result.value));
      if w1.result.Err? then Step(FromAck(w1.result), w1.bus)
      else
        var meas := ReadByteStep(w1.bus, address, CTRL_MEAS_REG);
        if meas.result.Err? then Step(Fail(Transport(meas.result.error)), meas.bus)
        else
          var w2 := WriteByteStep(meas.bus, address, CTRL_MEAS_REG, CtrlMeasValue(meas.result.value));
          if w2.result.Err? then Step(FromAck(w2.result), w2.bus)
          else
            var w3 := WriteByteStep(w2.bus, address, CONFIG_REG, CONFIG_VALUE);
            Step(FromAck(w3.result), w3.bus)
  }

  /** The five transactions of a complete configureSettings, given the ctrl_hum byte read. */
  function ConfigureTrace(address: Address, ctrlHum: Byte): (t: seq<Transaction>)
    ensures |t| == 5
  {
    [ByteRead(address, CTRL_HUM_REG),
     ByteWrite(address, CTRL_HUM_REG, CtrlHumValue(ctrlHum)),
     ByteRead(address, CTRL_MEAS_REG),
     ByteWrite(address, CTRL_MEAS_REG, 0x57),
     ByteWrite(address, CONFIG_REG, CONFIG_VALUE)]
  }

  /** The bus error of an answer, if it is one. */
  function ErrorOf<T>(reply: Result<T, BusError>): (e: Option<BusError>)
    ensures e.Some? <==> reply.Err?
    ensures reply.Err? ==> e == Some(reply.error)
  {
    if reply.Err? then Some(reply.error) else None
  }

  /** The bus error, if any, that answers the i-th of configureSettings' five transactions
      when they are issued from state s: the two reads take the next two byte answers and
      the three writes the next three acknowledgements. */
  function ConfigureAnswerError(s: BusState, i: nat): Option<BusError>
    requires i < 5
  {
    if i == 0 then ErrorOf(ByteReplyAt(s, 0))
    else if i == 1 then ErrorOf(AckReply(s.script, s.writes))
    else if i == 2 then ErrorOf(ByteReplyAt(s, 1))
    else ErrorOf(AckReply(s.script, s.writes + i - 2))
  }

  /** From s, configureSettings ended with r after issuing the first k of its five
      transactions: the answers to the first k - 1 were not errors, and the k-th answer's
      error, if any, is the failure; without one, all five were issued and r passes. */
  predicate ConfigureStopsAt(s: BusState, address: Address, r: Step<Outcome>, k: nat)
  {
    1 <= k <= 5 &&
    r.bus.trace == s.trace + ConfigureTrace(address, ByteValueAt(s, 0))[..k] &&
    (forall i :: 0 <= i < k - 1 ==> ConfigureAnswerError(s, i).None?) &&
    (ConfigureAnswerError(s, k - 1).Some? ==> r.result == Fail(Transport(ConfigureAnswerError(s, k - 1).value))) &&
    (ConfigureAnswerError(s, k - 1).None? ==> k == 5 && r.result == Pass)
  }

  /** configureSettings issues its five transactions in order up to the first whose answer
      is an error, and stops there with that error; it passes only when all five were issued
      and answered without error. The last transaction issued is the one that failed. */
  lemma {:induction false} ConfigureSettingsTrace(s: BusState, address: Address)
    ensures exists k :: ConfigureStopsAt(s, address, ConfigureSettings(s, address), k)
    ensures ConfigureSettings(s, address).result.Fail? ==>
      LastAnswerFails(ConfigureSettings(s, address).bus, ConfigureSettings(s, address).result)
  {
    var r := ConfigureSettings(s, address);
    var full := ConfigureTrace(address, ByteValueAt(s, 0));
    var hum := ReadByteStep(s, address, CTRL_HUM_REG);
    if hum.result.Err? {
      assert r.bus.trace == s.trace + full[..1];
      assert ConfigureStopsAt(s, address, r, 1);
    } else {
      var w1 := WriteByteStep(hum.bus, address, CTRL_HUM_REG, CtrlHumValue(ByteValueAt(s, 0)));
      if w1.result.Err? {
        assert r.bus.trace == s.trace + full[..2];
        assert ConfigureStopsAt(s, address, r, 2);
      } else {
        ConfigureSettingsLate(s, address);
      }
    }
  }

  /** ConfigureSettingsTrace once the ctrl_hum read and write were answered without error. */
  lemma {:induction false} ConfigureSettingsLate(s: BusState, address: Address)
    requires ByteReplyAt(s, 0).Ok? && AckReply(s.script, s.writes).Ok?
    ensures exists k :: ConfigureStopsAt(s, address, ConfigureSettings(s, address), k)
    ensures ConfigureSettings(s, address).result.Fail? ==>
      LastAnswerFails(ConfigureSettings(s, address).bus, ConfigureSettings(s, address).result)
  {
    var r := ConfigureSettings(s, address);
    var full := ConfigureTrace(address, ByteValueAt(s, 0));
    var hum := ReadByteStep(s, address, CTRL_HUM_REG);
    var w1 := WriteByteStep(hum.bus, address, CTRL_HUM_REG, CtrlHumValue(ByteValueAt(s, 0)));
    var meas := ReadByteStep(w1.bus, address, CTRL_MEAS_REG);
    assert meas.result == ByteReplyAt(s, 1);
    if meas.result.Err? {
      assert r.bus.trace == s.trace + full[..3];
      assert ConfigureStopsAt(s, address, r, 3);
    } else {
      var w2 := WriteByteStep(meas.bus, address, CTRL_MEAS_REG, CtrlMeasValue(meas.result.value));
      if w2.result.Err? {
        assert r.bus.trace == s.trace + full[..4];
        assert ConfigureStopsAt(s, address, r, 4);
      } else {
        assert r.bus.trace == s.trace + full[..5];
        assert forall i :: 0 <= i < 4 ==> ConfigureAnswerError(s, i).None?;
        assert ConfigureStopsAt(s, address, r, 5);
      }
    }
  }

  // ---------------------------------------------------------------- readRawData

  /** readRawData: one block read of the eight data registers, then the decode. */
  function ReadRawData(s: BusState, address: Address): (r: Step<Result<RawData, Error>>)
    ensures r.bus == s.(blockReads := s.blockReads + 1,
                        trace := s.trace + [BlockRead(address, DATA_REGS, DATA_REGS_LEN)])
    ensures r.result.Ok? <==> BlockReply(s.script, s.blockReads).Ok?
    ensures r.result.Ok? ==> AdcReadout.InRange(r.result.value)
    ensures r.result.Err? ==> r.result.error == Transport(BlockReply(s.script, s.blockReads).error)
  {
    var block := ReadBlockStep(s, address, DATA_REGS, DATA_REGS_LEN);
    Step(if block.result.Ok? then Ok(DecodeRawData(block.result.value))
         else Err(Transport(block.result.error)),
         block.bus)
  }

  // ---------------------------------------------------------------- initialize

  /** What initialize answers, the coefficients it leaves, and the bus after it. */
  datatype InitStep = InitStep(outcome: Outcome, coefficients: Option<Coefficients>, bus: BusState)

  /** initialize: chip id check, soft reset, image register wait, coefficient read and
      configuration, each step only after the one before succeeded. */
  function Initialize(s: BusState, address: Address, coefficients: Option<Coefficients>): (r: InitStep)
    ensures r.bus.script == s.script
    ensures r.outcome.Pass? ==> r.coefficients.Some?
    ensures r.coefficients != coefficients ==> r.coefficients.Some?
    ensures r.outcome.Fail? ==> !r.outcome.error.NoCoefficients?
  {
    var chip := CheckChipId(s, address, CHIP_ID_TRIES);
    if chip.result.Fail? then InitStep(chip.result, coefficients, chip.bus)
    else
      var reset := SoftReset(chip.bus, address);
      if reset.result.Fail? then InitStep(reset.result, coefficients, reset.bus)
      else
        var wait := WaitForImageRegisterUpdate(reset.bus, address, IMAGE_UPDATE_TRIES);
        if wait.result.Fail? then InitStep(wait.result, coefficients, wait.bus)
        else
          var coeffs := ReadCoefficients(wait.bus, address);
          if coeffs.result.Err? then InitStep(Fail(coeffs.result.error), coefficients, coeffs.bus)
          else
            var conf := ConfigureSettings(coeffs.bus, address);
            InitStep(conf.result, Some(coeffs.result.value), conf.bus)
  }

  /** The first part of initialize's transactions: n1 chip id reads, the reset and n2
      status reads. */
  function FrontTrace(address: Address, n1: nat, n2: nat): (t: seq<Transaction>)
    ensures |t| == n1 + 1 + n2
    ensures t[n1] == ByteWrite(address, RESET_REG, SOFT_RESET_COMMAND)
  {
    Repeat(ByteRead(address, CHIP_ID_REG), n1) +
    [ByteWrite(address, RESET_REG, SOFT_RESET_COMMAND)] +
    Repeat(ByteRead(address, STATUS_REG), n2)
  }

  /** The two block reads of readCoefficients. */
  function CalibrationTrace(address: Address): (t: seq<Transaction>)
    ensures |t| == 2
  {
    [BlockRead(address, TP_COEFFICIENT_REGS, TP_COEFFICIENT_REGS_LEN),
     BlockRead(address, H_COEFFICIENT_REGS, H_COEFFICIENT_REGS_LEN)]
  }

  /** The transactions of a successful initialize: n1 chip id reads, the reset, n2 status
      reads, the two calibration blocks and the configuration. */
  function InitTrace(address: Address, n1: nat, n2: nat, ctrlHum: Byte): (t: seq<Transaction>)
    ensures |t| == n1 + n2 + 8
  {
    FrontTrace(address, n1, n2) + CalibrationTrace(address) + ConfigureTrace(address, ctrlHum)
  }

  /** w is the bus after n1 chip id reads, the reset and n2 status reads from s. */
  predicate AfterFront(s: BusState, address: Address, w: BusState, n1: nat, n2: nat)
  {
    1 <= n1 <= CHIP_ID_TRIES && 1 <= n2 <= IMAGE_UPDATE_TRIES &&
    w == s.(byteReads := s.byteReads + n1 + n2, writes := s.writes + 1,
            trace := s.trace + FrontTrace(address, n1, n2))
  }

  /** The state after a successful chip id check, reset and image register wait. */
  lemma {:induction false} InitFrontSteps(s: BusState, address: Address, chip: Step<Outcome>,
                                          reset: Step<Outcome>, wait: Step<Outcome>) returns (n1: nat, n2: nat)
    requires chip == CheckChipId(s, address, CHIP_ID_TRIES) && chip.result.Pass?
    requires reset == SoftReset(chip.bus, address) && reset.result.Pass?
    requires wait == WaitForImageRegisterUpdate(reset.bus, address, IMAGE_UPDATE_TRIES)
    ensures n1 == chip.bus.byteReads - s.byteReads && n2 == wait.bus.byteReads - reset.bus.byteReads
    ensures AfterFront(s, address, wait.bus, n1, n2)
  {
    CheckChipIdReads(s, address, CHIP_ID_TRIES);
    WaitReads(reset.bus, address, IMAGE_UPDATE_TRIES);
    n1 := chip.bus.byteReads - s.byteReads;
    n2 := wait.bus.byteReads - reset.bus.byteReads;
    var r1 := Repeat(ByteRead(address, CHIP_ID_REG), n1);
    var w := [ByteWrite(address, RESET_REG, SOFT_RESET_COMMAND)];
    var r2 := Repeat(ByteRead(address, STATUS_REG), n2);
    assert s.trace + r1 + w + r2 == s.trace + (r1 + w + r2);
  }

  /** Both calibration blocks the bus would deliver next from state s arrive. */
  predicate CalibrationReadable(s: BusState)
  {
    BlockReply(s.script, s.blockReads).Ok? && BlockReply(s.script, s.blockReads + 1).Ok?
  }

  /** The ctrl_hum byte configureSettings reads after the chip id and status reads is the
      byte answer that follows them. */
  lemma CtrlHumAfterFront(s: BusState, b: BusState, n: nat)
    requires b.script == s.script && b.byteReads == s.byteReads + n
    ensures ByteValueAt(b, 0) == ByteValueAt(s, n)
  {
    assert ByteReplyAt(b, 0) == ByteReplyAt(s, n);
  }

  /** Where initialize's transactions can stop: after the reset, after the status reads,
      after the first calibration block and anywhere in the configuration. */
  lemma InitTracePrefixes(address: Address, n1: nat, n2: nat, ctrlHum: Byte)
    ensures InitTrace(address, n1, n2, ctrlHum)[..n1 + 1] ==
      Repeat(ByteRead(address, CHIP_ID_REG), n1) + [ByteWrite(address, RESET_REG, SOFT_RESET_COMMAND)]
    ensures InitTrace(address, n1, n2, ctrlHum)[..n1 + 1 + n2] == FrontTrace(address, n1, n2)
    ensures InitTrace(address, n1, n2, ctrlHum)[..n1 + n2 + 2] ==
      FrontTrace(address, n1, n2) + [CalibrationTrace(address)[0]]
  {
    var front := FrontTrace(address, n1, n2);
    var t := InitTrace(address, n1, n2, ctrlHum);
    assert t[..n1 + 1 + n2] == front;
    assert front[..n1 + 1] == Repeat(ByteRead(address, CHIP_ID_REG), n1) + [ByteWrite(address, RESET_REG, SOFT_RESET_COMMAND)];
    assert t[..n1 + 1] == front[..n1 + 1];
  }

  lemma ConfigurePrefix(address: Address, n1: nat, n2: nat, ctrlHum: Byte, j: nat)
    requires j <= 5
    ensures InitTrace(address, n1, n2, ctrlHum)[..n1 + n2 + 3 + j] ==
      FrontTrace(address, n1, n2) + CalibrationTrace(address) + ConfigureTrace(address, ctrlHum)[..j]
  {
  }

  /** c is the bus after n1 chip id reads, the reset, n2 status reads and both calibration
      block reads from s. */
  predicate BeforeConfigure(s: BusState, address: Address, c: BusState, n1: nat, n2: nat)
  {
    1 <= n1 <= CHIP_ID_TRIES && 1 <= n2 <= IMAGE_UPDATE_TRIES &&
    c.script == s.script && c.byteReads == s.byteReads + n1 + n2 && c.writes == s.writes + 1 &&
    c.trace == s.trace + (FrontTrace(address, n1, n2) + CalibrationTrace(address))
  }

  /** A successful readCoefficients issues the two block reads and changes nothing else. */
  lemma CalibrationBus(w: BusState, address: Address)
    requires ReadCoefficients(w, address).result.Ok?
    ensures ReadCoefficients(w, address).bus ==
      w.(blockReads := w.blockReads + 2, trace := w.trace + CalibrationTrace(address))
  {
    ReadCoefficientsOutcome(w, address);
  }

  /** The bus before configureSettings, once the first four steps of initialize passed:
      w is the bus after the chip id check, the reset and the wait. */
  lemma {:induction false} AfterCalibration(s: BusState, address: Address, n1: nat, n2: nat, w: BusState)
    requires AfterFront(s, address, w, n1, n2)
    requires ReadCoefficients(w, address).result.Ok?
    ensures BeforeConfigure(s, address, ReadCoefficients(w, address).bus, n1, n2)
  {
    CalibrationBus(w, address);
    var front := FrontTrace(address, n1, n2);
    assert ReadCoefficients(w, address).bus.trace == s.trace + front + CalibrationTrace(address);
  }

  /** The trace of initialize when its configuration passes. */
  lemma {:induction false} StepsTrace(s: BusState, address: Address, n1: nat, n2: nat, c: BusState)
    requires BeforeConfigure(s, address, c, n1, n2) && ConfigureSettings(c, address).result == Pass
    ensures ConfigureSettings(c, address).bus.trace == s.trace + InitTrace(address, n1, n2, ByteValueAt(s, n1 + n2))
  {
    ConfigureSettingsTrace(c, address);
    CtrlHumAfterFront(s, c, n1 + n2);
    var config := ConfigureTrace(address, ByteValueAt(s, n1 + n2));
    var k: nat :| ConfigureStopsAt(c, address, ConfigureSettings(c, address), k);
    assert config[..5] == config;
    var front := FrontTrace(address, n1, n2);
    var blocks := CalibrationTrace(address);
    assert ConfigureSettings(c, address).bus.trace == s.trace + (front + blocks + config);
  }

  /** Coefficients read from a state w whose bus has made as many block reads as s are the
      ones parsed from the first two calibration blocks the bus delivers from s. */
  lemma {:induction false} CoefficientsFromBlocks(s: BusState, w: BusState, address: Address)
    requires w.script == s.script && w.blockReads == s.blockReads
    requires ReadCoefficients(w, address).result.Ok?
    ensures CalibrationReadable(s)
    ensures ReadCoefficients(w, address).result.value == ParseCoefficients(CalibrationBlocks(s).tp, CalibrationBlocks(s).h)
  {
    assert CalibrationBlocks(w) == CalibrationBlocks(s);
    ReadCoefficientsValue(w, address);
  }

  lemma ReadCoefficientsValue(w: BusState, address: Address)
    requires ReadCoefficients(w, address).result.Ok?
    ensures CalibrationReadable(w)
    ensures ReadCoefficients(w, address).result.value == ParseCoefficients(CalibrationBlocks(w).tp, CalibrationBlocks(w).h)
  {
  }

  /** The bus went from s to b by issuing all of InitTrace(address, n1, n2, _): n1 chip id
      reads, the reset, n2 status reads, both calibration blocks and the configuration, with
      the ctrl_hum value taken from the byte answer after the chip id and status reads. */
  predicate Completed(s: BusState, address: Address, b: BusState, n1: nat, n2: nat)
  {
    1 <= n1 <= CHIP_ID_TRIES && 1 <= n2 <= IMAGE_UPDATE_TRIES &&
    b.trace == s.trace + InitTrace(address, n1, n2, ByteValueAt(s, n1 + n2))
  }

  /** The first n chip id answers from s each failed the check, so each was retried. */
  predicate ChipIdRetried(s: BusState, n: int)
  {
    forall i :: 0 <= i < n ==> ChipIdVerdict(ByteReplyAt(s, i)).Fail?
  }

  /** The byte answers from..to - 1 from s each found im_update set, so each was retried. */
  predicate StatusBusy(s: BusState, from: nat, to: int)
  {
    forall i :: from <= i < to ==> Busy(ByteReplyAt(s, i))
  }

  /** The answers to the first m transactions of InitTrace(address, n1, n2, _) from s each let
      initialize go on: every chip id read but the n1-th was retried and the n1-th found
      0x60; the reset was acknowledged; every status read but the n2-th found im_update set
      and the n2-th found it clear; the block reads and configureSettings' two reads and
      three writes were answered without error. */
  predicate Proceeds(s: BusState, n1: nat, n2: nat, m: int)
  {
    1 <= n1 && 1 <= n2 &&
    ChipIdRetried(s, if m < n1 - 1 then m else n1 - 1) &&
    (m >= n1 ==> ByteReplyAt(s, n1 - 1) == Ok(CHIP_ID)) &&
    (m >= n1 + 1 ==> AckReply(s.script, s.writes).Ok?) &&
    StatusBusy(s, n1, if m - 1 < n1 + n2 - 1 then m - 1 else n1 + n2 - 1) &&
    (m >= n1 + n2 + 1 ==>
      ByteReplyAt(s, n1 + n2 - 1).Ok? && !ImageUpdating(ByteReplyAt(s, n1 + n2 - 1).value)) &&
    (m >= n1 + n2 + 2 ==> BlockReply(s.script, s.blockReads).Ok?) &&
    (m >= n1 + n2 + 3 ==> BlockReply(s.script, s.blockReads + 1).Ok?) &&
    (m >= n1 + n2 + 4 ==> ByteReplyAt(s, n1 + n2).Ok?) &&
    (m >= n1 + n2 + 5 ==> AckReply(s.script, s.writes + 1).Ok?) &&
    (m >= n1 + n2 + 6 ==> ByteReplyAt(s, n1 + n2 + 1).Ok?) &&
    (m >= n1 + n2 + 7 ==> AckReply(s.script, s.writes + 2).Ok?) &&
    (m >= n1 + n2 + 8 ==> AckReply(s.script, s.writes + 3).Ok?)
  }

  /** Every answer to the n1 + n2 + 8 transactions of a complete initialize lets it go on. */
  predicate AnswersPass(s: BusState, n1: nat, n2: nat)
  {
    n1 <= CHIP_ID_TRIES && n2 <= IMAGE_UPDATE_TRIES && Proceeds(s, n1, n2, n1 + n2 + 8)
  }

  /** The answers a passing chip id check got. */
  lemma {:induction false} ChipIdPassAnswers(s: BusState, address: Address, chip: Step<Outcome>) returns (n1: nat)
    requires chip == CheckChipId(s, address, CHIP_ID_TRIES) && chip.result.Pass?
    ensures n1 == chip.bus.byteReads - s.byteReads && 1 <= n1 <= CHIP_ID_TRIES
    ensures ChipIdRetried(s, n1 - 1) && ByteReplyAt(s, n1 - 1) == Ok(CHIP_ID)
  {
    CheckChipIdOutcome(s, address, CHIP_ID_TRIES);
    n1 := chip.bus.byteReads - s.byteReads;
  }

  /** The answers the status reads of the wait got, from a bus b that made n1 byte reads
      more than s. */
  lemma {:induction false} WaitAnswers(s: BusState, b: BusState, address: Address, n1: nat, wait: Step<Outcome>)
    returns (n2: nat)
    requires b.script == s.script && b.byteReads == s.byteReads + n1
    requires wait == WaitForImageRegisterUpdate(b, address, IMAGE_UPDATE_TRIES)
    ensures n2 == wait.bus.byteReads - b.byteReads && 1 <= n2 <= IMAGE_UPDATE_TRIES
    ensures StatusBusy(s, n1, n1 + n2 - 1)
    ensures wait.result.Pass? ==>
      ByteReplyAt(s, n1 + n2 - 1).Ok? && !ImageUpdating(ByteReplyAt(s, n1 + n2 - 1).value)
  {
    WaitOutcome(b, address, IMAGE_UPDATE_TRIES);
    n2 := wait.bus.byteReads - b.byteReads;
    forall i | n1 <= i < n1 + n2 - 1
      ensures Busy(ByteReplyAt(s, i))
    {
      assert ByteReplyAt(s, i) == ByteReplyAt(b, i - n1);
    }
    assert ByteReplyAt(s, n1 + n2 - 1) == ByteReplyAt(b, n2 - 1);
  }

  /** The answers up to the last status read, once the chip id check, the reset and the wait passed. */
  lemma {:induction false} FrontProceeds(s: BusState, address: Address, chip: Step<Outcome>, reset: Step<Outcome>,
                                         wait: Step<Outcome>, n1: nat, n2: nat)
    requires chip == CheckChipId(s, address, CHIP_ID_TRIES) && chip.result.Pass?
    requires reset == SoftReset(chip.bus, address) && reset.result.Pass?
    requires wait == WaitForImageRegisterUpdate(reset.bus, address, IMAGE_UPDATE_TRIES) && wait.result.Pass?
    requires n1 == chip.bus.byteReads - s.byteReads && n2 == wait.bus.byteReads - reset.bus.byteReads
    ensures Proceeds(s, n1, n2, n1 + n2 + 1)
  {
    var m1 := ChipIdPassAnswers(s, address, chip);
    var m2 := WaitAnswers(s, reset.bus, address, n1, wait);
  }

  /** The answers up to the second block read, once the coefficient read passed too. */
  lemma CalibrationProceeds(s: BusState, address: Address, n1: nat, n2: nat, w: BusState)
    requires AfterFront(s, address, w, n1, n2) && Proceeds(s, n1, n2, n1 + n2 + 1)
    requires ReadCoefficients(w, address).result.Ok?
    ensures Proceeds(s, n1, n2, n1 + n2 + 3)
  {
    ReadCoefficientsOutcome(w, address);
  }

  /** The answers to the first j transactions of configureSettings, issued from c, in terms of
      the answers from s. */
  lemma ConfigureProceeds(s: BusState, n1: nat, n2: nat, c: BusState, j: nat)
    requires c.script == s.script && c.byteReads == s.byteReads + n1 + n2 && c.writes == s.writes + 1
    requires Proceeds(s, n1, n2, n1 + n2 + 3) && j <= 5
    requires forall i :: 0 <= i < j ==> ConfigureAnswerError(c, i).None?
    ensures Proceeds(s, n1, n2, n1 + n2 + 3 + j)
  {
    assert ByteReplyAt(c, 0) == ByteReplyAt(s, n1 + n2);
    assert ByteReplyAt(c, 1) == ByteReplyAt(s, n1 + n2 + 1);
    assert j >= 1 ==> ConfigureAnswerError(c, 0).None?;
    assert j >= 2 ==> ConfigureAnswerError(c, 1).None?;
    assert j >= 3 ==> ConfigureAnswerError(c, 2).None?;
    assert j >= 4 ==> ConfigureAnswerError(c, 3).None?;
    assert j >= 5 ==> ConfigureAnswerError(c, 4).None?;
  }

  /** A configureSettings that passes got an answer without error to each of its five
      transactions. */
  lemma ConfigurePassAnswers(c: BusState, address: Address)
    requires ConfigureSettings(c, address).result == Pass
    ensures forall i :: 0 <= i < 5 ==> ConfigureAnswerError(c, i).None?
  {
    ConfigureSettingsTrace(c, address);
    var k: nat :| ConfigureStopsAt(c, address, ConfigureSettings(c, address), k);
    assert k == 5;
  }

  /** Every answer of a successful initialize let it go on. */
  lemma {:induction false} SuccessProceeds(s: BusState, address: Address, chip: Step<Outcome>, reset: Step<Outcome>,
                                           wait: Step<Outcome>, n1: nat, n2: nat)
    requires chip == CheckChipId(s, address, CHIP_ID_TRIES) && chip.result.Pass?
    requires reset == SoftReset(chip.bus, address) && reset.result.Pass?
    requires wait == WaitForImageRegisterUpdate(reset.bus, address, IMAGE_UPDATE_TRIES) && wait.result.Pass?
    requires n1 == chip.bus.byteReads - s.byteReads && n2 == wait.bus.byteReads - reset.bus.byteReads
    requires ReadCoefficients(wait.bus, address).result.Ok?
    requires ConfigureSettings(ReadCoefficients(wait.bus, address).bus, address).result == Pass
    ensures AnswersPass(s, n1, n2)
  {
    var a1, a2 := InitFrontSteps(s, address, chip, reset, wait);
    FrontProceeds(s, address, chip, reset, wait, n1, n2);
    BackProceeds(s, address, n1, n2, wait.bus);
  }

  /** The answers of the last two steps of a successful initialize let it go on. */
  lemma {:induction false} BackProceeds(s: BusState, address: Address, n1: nat, n2: nat, w: BusState)
    requires AfterFront(s, address, w, n1, n2) && Proceeds(s, n1, n2, n1 + n2 + 1)
    requires ReadCoefficients(w, address).result.Ok?
    requires ConfigureSettings(ReadCoefficients(w, address).bus, address).result == Pass
    ensures Proceeds(s, n1, n2, n1 + n2 + 8)
  {
    CalibrationProceeds(s, address, n1, n2, w);
    AfterCalibration(s, address, n1, n2, w);
    var c := ReadCoefficients(w, address).bus;
    ConfigurePassAnswers(c, address);
    ConfigureProceeds(s, n1, n2, c, 5);
  }

  /** A successful initialize issued exactly the protocol's transactions, in order, with
      at most five chip id reads and five status reads, writing to ctrl_hum the value made
      from the byte answer that follows those reads, and keeps the coefficients parsed from
      the two calibration blocks. */
  lemma {:induction false} InitializeSuccess(s: BusState, address: Address, coefficients: Option<Coefficients>)
    requires Initialize(s, address, coefficients).outcome == Pass
    ensures CalibrationReadable(s)
    ensures Initialize(s, address, coefficients).coefficients ==
      Some(ParseCoefficients(CalibrationBlocks(s).tp, CalibrationBlocks(s).h))
    ensures exists n1: nat, n2: nat ::
      Completed(s, address, Initialize(s, address, coefficients).bus, n1, n2) && AnswersPass(s, n1, n2)
  {
    var chip := CheckChipId(s, address, CHIP_ID_TRIES);
    var reset := SoftReset(chip.bus, address);
    var wait := WaitForImageRegisterUpdate(reset.bus, address, IMAGE_UPDATE_TRIES);
    var coeffs := ReadCoefficients(wait.bus, address);
    var conf := ConfigureSettings(coeffs.bus, address);
    assert chip.result.Pass? && reset.result.Pass? && wait.result.Pass? && coeffs.result.Ok? && conf.result == Pass;
    assert Initialize(s, address, coefficients) == InitStep(conf.result, Some(coeffs.result.value), conf.bus);
    StagesCoefficients(s, address, chip, reset, wait, coeffs);
    var n1, n2 := StagesCompleted(s, address, chip, reset, wait);
    SuccessProceeds(s, address, chip, reset, wait, n1, n2);
    assert Completed(s, address, conf.bus, n1, n2) && AnswersPass(s, n1, n2);
  }

  /** The coefficients of InitializeSuccess, given the first four passing stages. */
  lemma {:induction false} StagesCoefficients(s: BusState, address: Address, chip: Step<Outcome>, reset: Step<Outcome>,
                                              wait: Step<Outcome>, coeffs: Step<Result<Coefficients, Error>>)
    requires chip == CheckChipId(s, address, CHIP_ID_TRIES) && chip.result.Pass?
    requires reset == SoftReset(chip.bus, address) && reset.result.Pass?
    requires wait == WaitForImageRegisterUpdate(reset.bus, address, IMAGE_UPDATE_TRIES) && wait.result.Pass?
    requires coeffs == ReadCoefficients(wait.bus, address) && coeffs.result.Ok?
    ensures CalibrationReadable(s)
    ensures coeffs.result.value == ParseCoefficients(CalibrationBlocks(s).tp, CalibrationBlocks(s).h)
  {
    assert wait.bus.script == s.script && wait.bus.blockReads == s.blockReads;
    CoefficientsFromBlocks(s, wait.bus, address);
  }

  /** The trace of InitializeSuccess, given the first three passing stages. */
  lemma {:induction false} StagesCompleted(s: BusState, address: Address, chip: Step<Outcome>, reset: Step<Outcome>,
                                           wait: Step<Outcome>) returns (n1: nat, n2: nat)
    requires chip == CheckChipId(s, address, CHIP_ID_TRIES) && chip.result.Pass?
    requires reset == SoftReset(chip.bus, address) && reset.result.Pass?
    requires wait == WaitForImageRegisterUpdate(reset.bus, address, IMAGE_UPDATE_TRIES) && wait.result.Pass?
    requires ReadCoefficients(wait.bus, address).result.Ok?
    requires ConfigureSettings(ReadCoefficients(wait.bus, address).bus, address).result == Pass
    ensures n1 == chip.bus.byteReads - s.byteReads && n2 == wait.bus.byteReads - reset.bus.byteReads
    ensures Completed(s, address, ConfigureSettings(ReadCoefficients(wait.bus, address).bus, address).bus, n1, n2)
  {
    n1, n2 := InitFrontSteps(s, address, chip, reset, wait);
    BackCompleted(s, address, n1, n2, wait.bus);
  }

  /** The last two stages of a successful initialize complete the protocol's trace. */
  lemma {:induction false} BackCompleted(s: BusState, address: Address, n1: nat, n2: nat, w: BusState)
    requires AfterFront(s, address, w, n1, n2)
    requires ReadCoefficients(w, address).result.Ok?
    requires ConfigureSettings(ReadCoefficients(w, address).bus, address).result == Pass
    ensures Completed(s, address, ConfigureSettings(ReadCoefficients(w, address).bus, address).bus, n1, n2)
  {
    AfterCalibration(s, address, n1, n2, w);
    StepsTrace(s, address, n1, n2, ReadCoefficients(w, address).bus);
  }

  /** How initialize stopped, on a bus that went from s to b with outcome o: it issued the
      first k of InitTrace(address, n1, n2, _), with the ctrl_hum value taken from the byte
      answer after the chip id and status reads; the answers to the first k - 1 let it go
      on; a chip id read is last only as the fifth, and a timed-out wait comes only after
      the fifth status read. */
  predicate StopsAt(s: BusState, address: Address, b: BusState, o: Outcome, n1: nat, n2: nat, k: nat)
  {
    1 <= n1 <= CHIP_ID_TRIES && 1 <= n2 <= IMAGE_UPDATE_TRIES && 1 <= k <= n1 + n2 + 8 &&
    b.trace == s.trace + InitTrace(address, n1, n2, ByteValueAt(s, n1 + n2))[..k] &&
    Proceeds(s, n1, n2, k - 1) &&
    (k <= n1 ==> k == CHIP_ID_TRIES) &&
    (o == Fail(ImageRegisterUpdateFailed) ==> n2 == IMAGE_UPDATE_TRIES && k == n1 + 1 + n2)
  }

  /** A failed initialize stopped right after the transaction whose answer failed it, having
      issued a prefix of the protocol's transactions. */
  ghost predicate StoppedAtFailure(s: BusState, address: Address, b: BusState, o: Outcome)
  {
    LastAnswerFails(b, o) && exists n1: nat, n2: nat, k: nat :: StopsAt(s, address, b, o, n1, n2, k)
  }

  lemma {:induction false} ChipIdStop(s: BusState, address: Address, chip: Step<Outcome>)
    requires chip == CheckChipId(s, address, CHIP_ID_TRIES) && chip.result.Fail?
    ensures StoppedAtFailure(s, address, chip.bus, chip.result)
  {
    CheckChipIdReads(s, address, CHIP_ID_TRIES);
    CheckChipIdOutcome(s, address, CHIP_ID_TRIES);
    var chipReads := Repeat(ByteRead(address, CHIP_ID_REG), 5);
    var full := InitTrace(address, 5, 1, ByteValueAt(s, 6));
    assert full[..5] == chipReads;
    assert StopsAt(s, address, chip.bus, chip.result, 5, 1, 5);
    assert ByteReply(chip.bus.script, chip.bus.byteReads - 1) == ByteReplyAt(s, 4);
    assert chip.bus.trace[|chip.bus.trace| - 1] == ByteRead(address, CHIP_ID_REG);
  }

  lemma {:induction false} ResetStop(s: BusState, address: Address, chip: Step<Outcome>, reset: Step<Outcome>)
    requires chip == CheckChipId(s, address, CHIP_ID_TRIES) && chip.result.Pass?
    requires reset == SoftReset(chip.bus, address) && reset.result.Fail?
    ensures StoppedAtFailure(s, address, reset.bus, reset.result)
  {
    CheckChipIdReads(s, address, CHIP_ID_TRIES);
    var n1 := ChipIdPassAnswers(s, address, chip);
    InitTracePrefixes(address, n1, 1, ByteValueAt(s, n1 + 1));
    var front := Repeat(ByteRead(address, CHIP_ID_REG), n1) + [ByteWrite(address, RESET_REG, SOFT_RESET_COMMAND)];
    assert reset.bus.trace == s.trace + front;
    assert StopsAt(s, address, reset.bus, reset.result, n1, 1, n1 + 1);
    assert reset.bus.trace[|reset.bus.trace| - 1] == ByteWrite(address, RESET_REG, SOFT_RESET_COMMAND);
  }

  lemma {:induction false} WaitStop(s: BusState, address: Address, n1: nat, b: BusState, wait: Step<Outcome>)
    requires 1 <= n1 <= CHIP_ID_TRIES
    requires b == s.(byteReads := s.byteReads + n1, writes := s.writes + 1,
                     trace := s.trace + (Repeat(ByteRead(address, CHIP_ID_REG), n1) +
                                         [ByteWrite(address, RESET_REG, SOFT_RESET_COMMAND)]))
    requires ChipIdRetried(s, n1 - 1) && ByteReplyAt(s, n1 - 1) == Ok(CHIP_ID) && AckReply(s.script, s.writes).Ok?
    requires wait == WaitForImageRegisterUpdate(b, address, IMAGE_UPDATE_TRIES) && wait.result.Fail?
    ensures StoppedAtFailure(s, address, wait.bus, wait.result)
  {
    WaitReads(b, address, IMAGE_UPDATE_TRIES);
    WaitOutcome(b, address, IMAGE_UPDATE_TRIES);
    var n2 := WaitAnswers(s, b, address, n1, wait);
    WaitProceeds(s, n1, n2);
    InitTracePrefixes(address, n1, n2, ByteValueAt(s, n1 + n2));
    var statusReads := Repeat(ByteRead(address, STATUS_REG), n2);
    assert wait.bus.trace == s.trace + FrontTrace(address, n1, n2);
    assert StopsAt(s, address, wait.bus, wait.result, n1, n2, n1 + 1 + n2);
    assert ByteReply(wait.bus.script, wait.bus.byteReads - 1) == ByteReplyAt(b, n2 - 1);
    assert wait.bus.trace[|wait.bus.trace| - 1] == statusReads[n2 - 1];
  }

  /** The answers up to the status read before the last one let initialize go on. */
  lemma WaitProceeds(s: BusState, n1: nat, n2: nat)
    requires 1 <= n1 && 1 <= n2
    requires ChipIdRetried(s, n1 - 1) && ByteReplyAt(s, n1 - 1) == Ok(CHIP_ID) && AckReply(s.script, s.writes).Ok?
    requires StatusBusy(s, n1, n1 + n2 - 1)
    ensures Proceeds(s, n1, n2, n1 + n2)
  {
  }

  lemma {:induction false} CoefficientsStop(s: BusState, address: Address, n1: nat, n2: nat, w: BusState,
                                            coeffs: Step<Result<Coefficients, Error>>)
    requires AfterFront(s, address, w, n1, n2) && Proceeds(s, n1, n2, n1 + n2 + 1)
    requires coeffs == ReadCoefficients(w, address) && coeffs.result.Err?
    ensures StoppedAtFailure(s, address, coeffs.bus, Fail(coeffs.result.error))
  {
    ReadCoefficientsOutcome(w, address);
    InitTracePrefixes(address, n1, n2, ByteValueAt(s, n1 + n2));
    var front := FrontTrace(address, n1, n2);
    var blocks := CalibrationTrace(address);
    if BlockReply(w.script, w.blockReads).Err? {
      assert coeffs.bus.trace == s.trace + (front + [blocks[0]]);
      assert StopsAt(s, address, coeffs.bus, Fail(coeffs.result.error), n1, n2, n1 + n2 + 2);
    } else {
      ConfigurePrefix(address, n1, n2, ByteValueAt(s, n1 + n2), 0);
      assert coeffs.bus.trace == s.trace + (front + blocks + ConfigureTrace(address, ByteValueAt(s, n1 + n2))[..0]);
      assert StopsAt(s, address, coeffs.bus, Fail(coeffs.result.error), n1, n2, n1 + n2 + 3);
    }
  }

  lemma {:induction false} ConfigureStop(s: BusState, address: Address, n1: nat, n2: nat, c: BusState)
    requires BeforeConfigure(s, address, c, n1, n2) && ConfigureSettings(c, address).result.Fail?
    requires Proceeds(s, n1, n2, n1 + n2 + 3)
    ensures StoppedAtFailure(s, address, ConfigureSettings(c, address).bus, ConfigureSettings(c, address).result)
  {
    ConfigureSettingsTrace(c, address);
    CtrlHumAfterFront(s, c, n1 + n2);
    var conf := ConfigureSettings(c, address);
    var config := ConfigureTrace(address, ByteValueAt(s, n1 + n2));
    var j: nat :| ConfigureStopsAt(c, address, conf, j);
    ConfigureProceeds(s, n1, n2, c, j - 1);
    ConfigurePrefix(address, n1, n2, ByteValueAt(s, n1 + n2), j);
    var front := FrontTrace(address, n1, n2);
    var blocks := CalibrationTrace(address);
    assert conf.bus.trace == s.trace + (front + blocks + config[..j]);
    assert StopsAt(s, address, conf.bus, conf.result, n1, n2, n1 + n2 + 3 + j);
  }

  /** A failed initialize stops right after the transaction whose answer failed it: its
      transactions are a prefix of the protocol's, at most five chip id reads and five
      status reads, and the failure is the bus error answering the last of them, the wrong
      chip id returned by the fifth chip id read, or im_update still set at the fifth status
      read. */
  lemma {:induction false} InitializeFailure(s: BusState, address: Address, coefficients: Option<Coefficients>)
    ensures Initialize(s, address, coefficients).outcome.Fail? ==>
      StoppedAtFailure(s, address, Initialize(s, address, coefficients).bus, Initialize(s, address, coefficients).outcome)
  {
    var r := Initialize(s, address, coefficients);
    var chip := CheckChipId(s, address, CHIP_ID_TRIES);
    if chip.result.Fail? {
      assert r == InitStep(chip.result, coefficients, chip.bus);
      ChipIdStop(s, address, chip);
      return;
    }
    var reset := SoftReset(chip.bus, address);
    if reset.result.Fail? {
      assert r == InitStep(reset.result, coefficients, reset.bus);
      ResetStop(s, address, chip, reset);
      return;
    }
    var wait := WaitForImageRegisterUpdate(reset.bus, address, IMAGE_UPDATE_TRIES);
    if wait.result.Fail? {
      assert r == InitStep(wait.result, coefficients, wait.bus);
      CheckChipIdReads(s, address, CHIP_ID_TRIES);
      var n1 := ChipIdPassAnswers(s, address, chip);
      WaitStop(s, address, n1, reset.bus, wait);
      return;
    }
    var coeffs := ReadCoefficients(wait.bus, address);
    if coeffs.result.Err? {
      assert r == InitStep(Fail(coeffs.result.error), coefficients, coeffs.bus);
    } else {
      var conf := ConfigureSettings(coeffs.bus, address);
      assert r == InitStep(conf.result, Some(coeffs.result.value), conf.bus);
    }
    LateStop(s, address, chip, reset, wait);
  }

  /** InitializeFailure for a failure in readCoefficients or configureSettings. */
  lemma {:induction false} LateStop(s: BusState, address: Address, chip: Step<Outcome>, reset: Step<Outcome>,
                                    wait: Step<Outcome>)
    requires chip == CheckChipId(s, address, CHIP_ID_TRIES) && chip.result.Pass?
    requires reset == SoftReset(chip.bus, address) && reset.result.Pass?
    requires wait == WaitForImageRegisterUpdate(reset.bus, address, IMAGE_UPDATE_TRIES) && wait.result.Pass?
    ensures var coeffs := ReadCoefficients(wait.bus, address);
      (coeffs.result.Err? ==> StoppedAtFailure(s, address, coeffs.bus, Fail(coeffs.result.error))) &&
      (coeffs.result.Ok? && ConfigureSettings(coeffs.bus, address).result.Fail? ==>
        StoppedAtFailure(s, address, ConfigureSettings(coeffs.bus, address).bus,
                         ConfigureSettings(coeffs.bus, address).result))
  {
    var n1, n2 := InitFrontSteps(s, address, chip, reset, wait);
    FrontProceeds(s, address, chip, reset, wait, n1, n2);
    var coeffs := ReadCoefficients(wait.bus, address);
    if coeffs.result.Err? {
      CoefficientsStop(s, address, n1, n2, wait.bus, coeffs);
    } else if ConfigureSettings(coeffs.bus, address).result.Fail? {
      CalibrationProceeds(s, address, n1, n2, wait.bus);
      AfterCalibration(s, address, n1, n2, wait.bus);
      ConfigureStop(s, address, n1, n2, coeffs.bus);
    }
  }

  /** Only the transactions that write to the bus. */
  function Writes(t: seq<Transaction>): (w: seq<Transaction>)
    ensures |w| <= |t|
  {
    if t == [] then [] else (if t[0].ByteWrite? then [t[0]] else []) + Writes(t[1..])
  }

  lemma {:induction false} WritesAppend(a: seq<Transaction>, b: seq<Transaction>)
    ensures Writes(a + b) == Writes(a) + Writes(b)
  {
    if a == [] {
      assert a + b == b;
    } else {
      assert (a + b)[0] == a[0];
      assert (a + b)[1..] == a[1..] + b;
      WritesAppend(a[1..], b);
    }
  }

  lemma {:induction false} WritesOfReads(t: Transaction, n: nat)
    requires !t.ByteWrite?
    ensures Writes(Repeat(t, n)) == []
  {
    if n > 0 {
      assert Repeat(t, n)[1..] == Repeat(t, n - 1);
      WritesOfReads(t, n - 1);
    }
  }

  lemma WritesOfOne(t: Transaction)
    ensures Writes([t]) == if t.ByteWrite? then [t] else []
  {
    assert [t][1..] == [];
  }

  /** Of configureSettings' five transactions, the second, fourth and fifth write. */
  lemma WritesOfConfigure(address: Address, ctrlHum: Byte)
    ensures Writes(ConfigureTrace(address, ctrlHum)) ==
      [ByteWrite(address, CTRL_HUM_REG, CtrlHumValue(ctrlHum)),
       ByteWrite(address, CTRL_MEAS_REG, 0x57),
       ByteWrite(address, CONFIG_REG, 0x10)]
  {
    var c := ConfigureTrace(address, ctrlHum);
    assert c == [c[0]] + [c[1]] + [c[2]] + [c[3]] + [c[4]];
    WritesAppend([c[0]] + [c[1]] + [c[2]] + [c[3]], [c[4]]);
    WritesAppend([c[0]] + [c[1]] + [c[2]], [c[3]]);
    WritesAppend([c[0]] + [c[1]], [c[2]]);
    WritesAppend([c[0]], [c[1]]);
    WritesOfOne(c[0]);
    WritesOfOne(c[1]);
    WritesOfOne(c[2]);
    WritesOfOne(c[3]);
    WritesOfOne(c[4]);
    ConfigValueFields();
  }

  /** Of the chip id reads, the reset and the status reads only the reset writes. */
  lemma WritesOfFront(address: Address, n1: nat, n2: nat)
    ensures Writes(FrontTrace(address, n1, n2)) == [ByteWrite(address, RESET_REG, SOFT_RESET_COMMAND)]
  {
    var chipReads := Repeat(ByteRead(address, CHIP_ID_REG), n1);
    var reset := ByteWrite(address, RESET_REG, SOFT_RESET_COMMAND);
    var statusReads := Repeat(ByteRead(address, STATUS_REG), n2);
    WritesAppend(chipReads + [reset], statusReads);
    WritesAppend(chipReads, [reset]);
    WritesOfOne(reset);
    WritesOfReads(ByteRead(address, CHIP_ID_REG), n1);
    WritesOfReads(ByteRead(address, STATUS_REG), n2);
  }

  lemma WritesOfCalibration(address: Address)
    ensures Writes(CalibrationTrace(address)) == []
  {
    var blocks := CalibrationTrace(address);
    assert blocks == [blocks[0]] + [blocks[1]];
    WritesAppend([blocks[0]], [blocks[1]]);
    WritesOfOne(blocks[0]);
    WritesOfOne(blocks[1]);
  }

  /** Of initialize's transactions only the reset, ctrl_hum, ctrl_meas and config writes write. */
  lemma WritesOfInitTrace(address: Address, n1: nat, n2: nat, ctrlHum: Byte)
    ensures Writes(InitTrace(address, n1, n2, ctrlHum)) ==
      [ByteWrite(address, RESET_REG, SOFT_RESET_COMMAND),
       ByteWrite(address, CTRL_HUM_REG, CtrlHumValue(ctrlHum)),
       ByteWrite(address, CTRL_MEAS_REG, 0x57),
       ByteWrite(address, CONFIG_REG, 0x10)]
  {
    var front := FrontTrace(address, n1, n2);
    var blocks := CalibrationTrace(address);
    var conf := ConfigureTrace(address, ctrlHum);
    WritesAppend(front + blocks, conf);
    WritesAppend(front, blocks);
    WritesOfFront(address, n1, n2);
    WritesOfCalibration(address);
    WritesOfConfigure(address, ctrlHum);
  }

  /** A successful initialize writes four times, in this order: the reset command, ctrl_hum
      with humidity oversampling x1 (made from the byte the ctrl_hum read returned), ctrl_meas
      = 0x57 and config = 0x10. */
  lemma {:induction false} InitializeWrites(s: BusState, address: Address, coefficients: Option<Coefficients>)
    requires Initialize(s, address, coefficients).outcome == Pass
    ensures |Initialize(s, address, coefficients).bus.trace| >= |s.trace|
    ensures exists n1: nat, n2: nat ::
              Completed(s, address, Initialize(s, address, coefficients).bus, n1, n2) &&
              Writes(Initialize(s, address, coefficients).bus.trace[|s.trace|..]) ==
                [ByteWrite(address, RESET_REG, SOFT_RESET_COMMAND),
                 ByteWrite(address, CTRL_HUM_REG, CtrlHumValue(ByteValueAt(s, n1 + n2))),
                 ByteWrite(address, CTRL_MEAS_REG, 0x57),
                 ByteWrite(address, CONFIG_REG, 0x10)]
  {
    InitializeSuccess(s, address, coefficients);
    var b := Initialize(s, address, coefficients).bus;
    var n1: nat, n2: nat :| Completed(s, address, b, n1, n2);
    assert b.trace[|s.trace|..] == InitTrace(address, n1, n2, ByteValueAt(s, n1 + n2));
    WritesOfInitTrace(address, n1, n2, ByteValueAt(s, n1 + n2));
  }

  /** A failed chip id check ends initialize with that failure after exactly five chip id
      reads: nothing is written and the coefficients are untouched. */
  lemma {:induction false} InitializeChipIdFailure(s: BusState, address: Address, coefficients: Option<Coefficients>)
    requires CheckChipId(s, address, CHIP_ID_TRIES).result.Fail?
    ensures Initialize(s, address, coefficients) ==
      InitStep(CheckChipId(s, address, CHIP_ID_TRIES).result, coefficients,
               s.(byteReads := s.byteReads + 5,
                  trace := s.trace + Repeat(ByteRead(address, CHIP_ID_REG), 5)))
  {
    CheckChipIdReads(s, address, CHIP_ID_TRIES);
    CheckChipIdOutcome(s, address, CHIP_ID_TRIES);
  }

  /** A failed reset ends initialize with the bus error that answered the reset write; the
      coefficients are untouched. */
  lemma {:induction false} InitializeResetFailure(s: BusState, address: Address, coefficients: Option<Coefficients>,
                                                  chip: Step<Outcome>, reset: Step<Outcome>)
    requires chip == CheckChipId(s, address, CHIP_ID_TRIES) && chip.result.Pass?
    requires reset == SoftReset(chip.bus, address) && reset.result.Fail?
    ensures Initialize(s, address, coefficients) == InitStep(reset.result, coefficients, reset.bus)
    ensures reset.result == Fail(Transport(AckReply(s.script, s.writes).error))
  {
  }

  /** A failed image register wait, a status read error or im_update still set at the fifth
      read, ends initialize with that failure before any block read: the reset is the only
      write and the coefficients are untouched. It times out exactly when all five status
      reads find im_update set. */
  lemma {:induction false} InitializeWaitFailure(s: BusState, address: Address, coefficients: Option<Coefficients>,
                                                 chip: Step<Outcome>, reset: Step<Outcome>, wait: Step<Outcome>)
    requires chip == CheckChipId(s, address, CHIP_ID_TRIES) && chip.result.Pass?
    requires reset == SoftReset(chip.bus, address) && reset.result.Pass?
    requires wait == WaitForImageRegisterUpdate(reset.bus, address, IMAGE_UPDATE_TRIES) && wait.result.Fail?
    ensures Initialize(s, address, coefficients) == InitStep(wait.result, coefficients, wait.bus)
    ensures wait.bus.blockReads == s.blockReads && wait.bus.writes == s.writes + 1
    ensures wait.result == Fail(ImageRegisterUpdateFailed) <==>
      forall k :: 0 <= k < IMAGE_UPDATE_TRIES ==> Busy(ByteReplyAt(reset.bus, k))
  {
    WaitTimesOut(reset.bus, address, IMAGE_UPDATE_TRIES);
  }

  /** A failed coefficient read ends initialize with the bus error of the failed block read:
      the coefficients are untouched and nothing is configured. */
  lemma {:induction false} InitializeCalibrationFailure(s: BusState, address: Address,
                                                        coefficients: Option<Coefficients>, chip: Step<Outcome>,
                                                        reset: Step<Outcome>, wait: Step<Outcome>,
                                                        coeffs: Step<Result<Coefficients, Error>>)
    requires chip == CheckChipId(s, address, CHIP_ID_TRIES) && chip.result.Pass?
    requires reset == SoftReset(chip.bus, address) && reset.result.Pass?
    requires wait == WaitForImageRegisterUpdate(reset.bus, address, IMAGE_UPDATE_TRIES) && wait.result.Pass?
    requires coeffs == ReadCoefficients(wait.bus, address) && coeffs.result.Err?
    ensures Initialize(s, address, coefficients) == InitStep(Fail(coeffs.result.error), coefficients, coeffs.bus)
    ensures coeffs.result.error.Transport? && coeffs.bus.writes == s.writes + 1
  {
  }

  /** A failed configureSettings ends initialize with its bus error, but the coefficients
      parsed from the two calibration blocks just before are kept. */
  lemma {:induction false} InitializeConfigureFailure(s: BusState, address: Address,
                                                      coefficients: Option<Coefficients>, chip: Step<Outcome>,
                                                      reset: Step<Outcome>, wait: Step<Outcome>,
                                                      coeffs: Step<Result<Coefficients, Error>>)
    requires chip == CheckChipId(s, address, CHIP_ID_TRIES) && chip.result.Pass?
    requires reset == SoftReset(chip.bus, address) && reset.result.Pass?
    requires wait == WaitForImageRegisterUpdate(reset.bus, address, IMAGE_UPDATE_TRIES) && wait.result.Pass?
    requires coeffs == ReadCoefficients(wait.bus, address) && coeffs.result.Ok?
    requires ConfigureSettings(coeffs.bus, address).result.Fail?
    ensures var conf := ConfigureSettings(coeffs.bus, address);
      Initialize(s, address, coefficients) ==
        InitStep(conf.result, Some(ParseCoefficients(CalibrationBlocks(s).tp, CalibrationBlocks(s).h)), conf.bus) &&
      conf.result.error.Transport?
  {
    StagesCoefficients(s, address, chip, reset, wait, coeffs);
  }

  /** initialize passes exactly when, for some n1 and n2 of at most five, the answers to all
      of InitTrace(address, n1, n2, _) let it go on. */
  lemma {:induction false} InitializeSucceeds(s: BusState, address: Address, coefficients: Option<Coefficients>)
    ensures Initialize(s, address, coefficients).outcome == Pass <==> exists n1: nat, n2: nat :: AnswersPass(s, n1, n2)
  {
    if exists n1: nat, n2: nat :: AnswersPass(s, n1, n2) {
      var n1: nat, n2: nat :| AnswersPass(s, n1, n2);
      PassesFromAnswers(s, address, coefficients, n1, n2);
    }
    if Initialize(s, address, coefficients).outcome == Pass {
      InitializeSuccess(s, address, coefficients);
    }
  }

  /** The answers of AnswersPass(s, n1, n2) make initialize pass. */
  lemma {:induction false} PassesFromAnswers(s: BusState, address: Address, coefficients: Option<Coefficients>,
                                             n1: nat, n2: nat)
    requires AnswersPass(s, n1, n2)
    ensures Initialize(s, address, coefficients).outcome == Pass
  {
    var chip := CheckChipId(s, address, CHIP_ID_TRIES);
    var reset := SoftReset(chip.bus, address);
    var wait := WaitForImageRegisterUpdate(reset.bus, address, IMAGE_UPDATE_TRIES);
    FrontFromAnswers(s, address, n1, n2, chip, reset, wait);
    BackFromAnswers(s, address, n1 + n2, wait.bus);
    var coeffs := ReadCoefficients(wait.bus, address);
    var conf := ConfigureSettings(coeffs.bus, address);
    assert Initialize(s, address, coefficients) == InitStep(conf.result, Some(coeffs.result.value), conf.bus);
  }

  /** The chip id check, the reset and the wait pass on the answers of AnswersPass(s, n1, n2),
      after n1 + n2 byte reads and one write. */
  lemma {:induction false} FrontFromAnswers(s: BusState, address: Address, n1: nat, n2: nat,
                                            chip: Step<Outcome>, reset: Step<Outcome>, wait: Step<Outcome>)
    requires AnswersPass(s, n1, n2)
    requires chip == CheckChipId(s, address, CHIP_ID_TRIES)
    requires reset == SoftReset(chip.bus, address)
    requires wait == WaitForImageRegisterUpdate(reset.bus, address, IMAGE_UPDATE_TRIES)
    ensures chip.result.Pass? && reset.result.Pass? && wait.result.Pass?
    ensures wait.bus.script == s.script && wait.bus.blockReads == s.blockReads
    ensures wait.bus.byteReads == s.byteReads + n1 + n2 && wait.bus.writes == s.writes + 1
  {
    ChipIdFromAnswers(s, address, n1);
    WaitFromAnswers(s, reset.bus, address, n1, n2);
  }

  /** From the bus w left by the first three steps, the coefficient read and configureSettings
      pass when the blocks arrive and configureSettings' five transactions are answered
      without error. */
  lemma {:induction false} BackFromAnswers(s: BusState, address: Address, n: nat, w: BusState)
    requires w.script == s.script && w.blockReads == s.blockReads
    requires w.byteReads == s.byteReads + n && w.writes == s.writes + 1
    requires BlockReply(s.script, s.blockReads).Ok? && BlockReply(s.script, s.blockReads + 1).Ok?
    requires ByteReplyAt(s, n).Ok? && ByteReplyAt(s, n + 1).Ok?
    requires AckReply(s.script, s.writes + 1).Ok? && AckReply(s.script, s.writes + 2).Ok? &&
             AckReply(s.script, s.writes + 3).Ok?
    ensures ReadCoefficients(w, address).result.Ok?
    ensures ConfigureSettings(ReadCoefficients(w, address).bus, address).result == Pass
  {
    ReadCoefficientsOutcome(w, address);
    ConfigureFromAnswers(s, n, ReadCoefficients(w, address).bus, address);
  }

  /** A chip id check whose first n1 - 1 answers fail and whose n1-th finds 0x60 passes after
      exactly n1 reads. */
  lemma {:induction false} ChipIdFromAnswers(s: BusState, address: Address, n1: nat)
    requires 1 <= n1 <= CHIP_ID_TRIES
    requires ChipIdRetried(s, n1 - 1) && ByteReplyAt(s, n1 - 1) == Ok(CHIP_ID)
    ensures CheckChipId(s, address, CHIP_ID_TRIES).result == Pass
    ensures CheckChipId(s, address, CHIP_ID_TRIES).bus.byteReads == s.byteReads + n1
  {
    CheckChipIdOutcome(s, address, CHIP_ID_TRIES);
    var n := CheckChipId(s, address, CHIP_ID_TRIES).bus.byteReads - s.byteReads;
    assert ChipIdVerdict(ByteReplyAt(s, n1 - 1)) == Pass;
  }

  /** A wait, from a bus b that made n1 byte reads more than s, whose first n2 - 1 answers find
      im_update set and whose n2-th finds it clear passes after exactly n2 reads. */
  lemma {:induction false} WaitFromAnswers(s: BusState, b: BusState, address: Address, n1: nat, n2: nat)
    requires b.script == s.script && b.byteReads == s.byteReads + n1
    requires 1 <= n2 <= IMAGE_UPDATE_TRIES
    requires StatusBusy(s, n1, n1 + n2 - 1)
    requires ByteReplyAt(s, n1 + n2 - 1).Ok? && !ImageUpdating(ByteReplyAt(s, n1 + n2 - 1).value)
    ensures WaitForImageRegisterUpdate(b, address, IMAGE_UPDATE_TRIES).result == Pass
    ensures WaitForImageRegisterUpdate(b, address, IMAGE_UPDATE_TRIES).bus.byteReads == b.byteReads + n2
  {
    WaitOutcome(b, address, IMAGE_UPDATE_TRIES);
    var n := WaitForImageRegisterUpdate(b, address, IMAGE_UPDATE_TRIES).bus.byteReads - b.byteReads;
    assert ByteReplyAt(b, n - 1) == ByteReplyAt(s, n1 + n - 1);
    assert ByteReplyAt(b, n2 - 1) == ByteReplyAt(s, n1 + n2 - 1);
  }

  /** configureSettings from c passes when its five transactions are answered without error. */
  lemma ConfigureFromAnswers(s: BusState, n: nat, c: BusState, address: Address)
    requires c.script == s.script && c.byteReads == s.byteReads + n && c.writes == s.writes + 1
    requires ByteReplyAt(s, n).Ok? && ByteReplyAt(s, n + 1).Ok?
    requires AckReply(s.script, s.writes + 1).Ok? && AckReply(s.script, s.writes + 2).Ok? &&
             AckReply(s.script, s.writes + 3).Ok?
    ensures ConfigureSettings(c, address).result == Pass
  {
    assert ByteReplyAt(c, 0) == ByteReplyAt(s, n);
    assert ByteReplyAt(c, 1) == ByteReplyAt(s, n + 1);
  }

  /** initialize changes the coefficients only with values parsed from both calibration
      blocks, which it reads only when every step before succeeded; when it made fewer than
      two block reads the coefficients are untouched and at most the reset was written. */
  lemma {:induction false} InitializeCoefficients(s: BusState, address: Address, coefficients: Option<Coefficients>)
    ensures Initialize(s, address, coefficients).coefficients != coefficients ==>
      CalibrationReadable(s) &&
      Initialize(s, address, coefficients).coefficients ==
        Some(ParseCoefficients(CalibrationBlocks(s).tp, CalibrationBlocks(s).h))
    ensures Initialize(s, address, coefficients).bus.blockReads < s.blockReads + 2 ==>
      Initialize(s, address, coefficients).coefficients == coefficients &&
      Initialize(s, address, coefficients).bus.writes <= s.writes + 1
  {
    var r := Initialize(s, address, coefficients);
    var chip := CheckChipId(s, address, CHIP_ID_TRIES);
    if chip.result.Fail? {
      assert r == InitStep(chip.result, coefficients, chip.bus);
      return;
    }
    var reset := SoftReset(chip.bus, address);
    if reset.result.Fail? {
      assert r == InitStep(reset.result, coefficients, reset.bus);
      return;
    }
    var wait := WaitForImageRegisterUpdate(reset.bus, address, IMAGE_UPDATE_TRIES);
    if wait.result.Fail? {
      assert r == InitStep(wait.result, coefficients, wait.bus);
      return;
    }
    var coeffs := ReadCoefficients(wait.bus, address);
    if coeffs.result.Err? {
      assert r == InitStep(Fail(coeffs.result.error), coefficients, coeffs.bus);
      return;
    }
    var conf := ConfigureSettings(coeffs.bus, address);
    assert r == InitStep(conf.result, Some(coeffs.result.value), conf.bus);
    CoefficientsFromBlocks(s, wait.bus, address);
  }
}