/** Bme280I2c: the driver object. It holds an open bus, the device address and the
    calibration coefficients, which initialize fills in. Each method is proved to
    do what the corresponding function of Protocol describes, so the properties
    proved there (attempt bounds, order of transactions, when the coefficients
    change) hold of the methods. The delays between bus transactions are left out. */
module Driver {
  import opened Results
  import opened Registers
  import opened I2c
  import opened Calibration
  import opened AdcReadout
  import opened Settings
  import opened Protocol
  import opened Compensation

  class Bme280I2c {
    const bus: I2cBus
    const address: Address
    /** null until readCoefficients succeeds. */
    var coefficients: Option<Coefficients>

    constructor(bus: I2cBus, address: Address)
      ensures this.bus == bus && this.address == address && coefficients == None
    {
      this.bus := bus;
      this.address := address;
      coefficients := None;
    }

    /** checkChipId(tries): read the chip id until it is 0x60, at most Attempts(tries) times. */
    method CheckChipId(tries: int) returns (r: Outcome)
      modifies bus
      ensures Step(r, bus.State()) == Protocol.CheckChipId(old(bus.State()), address, tries)
    {
      var remaining := tries;
      while true
        invariant Protocol.CheckChipId(bus.State(), address, remaining) ==
                  Protocol.CheckChipId(old(bus.State()), address, tries)
        decreases Attempts(remaining)
      {
        var chipId := bus.ReadByte(address, CHIP_ID_REG);
        r := ChipIdVerdict(chipId);
        if r.Pass? || remaining <= 1 {
          return;
        }
        remaining := remaining - 1;
      }
    }

    /** softReset: write the reset command. */
    method SoftReset() returns (r: Outcome)
      modifies bus
      ensures Step(r, bus.State()) == Protocol.SoftReset(old(bus.State()), address)
    {
      var ack := bus.WriteByte(address, RESET_REG, SOFT_RESET_COMMAND);
      r := FromAck(ack);
    }

    /** waitForImageRegisterUpdate(tries): read the status register until im_update is clear,
        at most Attempts(tries) times; a read error ends the wait. */
    method WaitForImageRegisterUpdate(tries: int) returns (r: Outcome)
      modifies bus
      ensures Step(r, bus.State()) == Protocol.WaitForImageRegisterUpdate(old(bus.State()), address, tries)
    {
      var remaining := tries;
      while true
        invariant Protocol.WaitForImageRegisterUpdate(bus.State(), address, remaining) ==
                  Protocol.WaitForImageRegisterUpdate(old(bus.State()), address, tries)
        decreases Attempts(remaining)
      {
        var status := bus.ReadByte(address, STATUS_REG);
        if status.Err? {
          return Fail(Transport(status.error));
        }
        if !ImageUpdating(status.value) {
          return Pass;
        }
        if remaining - 1 <= 0 {
          return Fail(ImageRegisterUpdateFailed);
        }
        remaining := remaining - 1;
      }
    }

    /** readCoefficients: read both calibration blocks and, only if both reads succeed,
        replace the coefficients with the parsed values. */
    method ReadCoefficients() returns (r: Outcome)
      modifies this, bus
      ensures var spec := Protocol.ReadCoefficients(old(bus.State()), address);
        bus.State() == spec.bus &&
        (spec.result.Ok? ==> r == Pass && coefficients == Some(spec.result.value)) &&
        (spec.result.Err? ==> r == Fail(spec.result.error) && coefficients == old(coefficients))
    {
      var tpRegs := bus.ReadI2cBlock(address, TP_COEFFICIENT_REGS, TP_COEFFICIENT_REGS_LEN);
      if tpRegs.Err? {
        return Fail(Transport(tpRegs.error));
      }
      var hRegs := bus.ReadI2cBlock(address, H_COEFFICIENT_REGS, H_COEFFICIENT_REGS_LEN);
      if hRegs.Err? {
        return Fail(Transport(hRegs.error));
      }
      coefficients := Some(ParseCoefficients(tpRegs.value, hRegs.value));
      r := Pass;
    }

    /** configureSettings: ctrl_hum, ctrl_meas and config, stopping at the first failure. */
    method ConfigureSettings() returns (r: Outcome)
      modifies bus
      ensures Step(r, bus.State()) == Protocol.ConfigureSettings(old(bus.State()), address)
    {
      var ctrlHum := bus.ReadByte(address, CTRL_HUM_REG);
      if ctrlHum.Err? {
        return Fail(Transport(ctrlHum.error));
      }
      var ack := bus.WriteByte(address, CTRL_HUM_REG, CtrlHumValue(ctrlHum.value));
      if ack.Err? {
        return FromAck(ack);
      }
      var ctrlMeas := bus.ReadByte(address, CTRL_MEAS_REG);
      if ctrlMeas.Err? {
        return Fail(Transport(ctrlMeas.error));
      }
      ack := bus.WriteByte(address, CTRL_MEAS_REG, CtrlMeasValue(ctrlMeas.value));
      if ack.Err? {
        return FromAck(ack);
      }
      ack := bus.WriteByte(address, CONFIG_REG, CONFIG_VALUE);
      r := FromAck(ack);
    }

    /** readRawData: read the eight data registers and decode the three ADC values. */
    method ReadRawData() returns (r: Result<RawData, Error>)
      modifies bus
      ensures Step(r, bus.State()) == Protocol.ReadRawData(old(bus.State()), address)
      ensures r.Ok? ==> AdcReadout.InRange(r.value)
    {
      var dataRegs := bus.ReadI2cBlock(address, DATA_REGS, DATA_REGS_LEN);
      if dataRegs.Err? {
        return Err(Transport(dataRegs.error));
      }
      r := Ok(DecodeRawData(dataRegs.value));
    }

    /** initialize: checkChipId, softReset, waitForImageRegisterUpdate, readCoefficients and
        configureSettings, each only after the one before succeeded. */
    method Initialize() returns (r: Outcome)
      modifies this, bus
      ensures InitStep(r, coefficients, bus.State()) ==
              Protocol.Initialize(old(bus.State()), address, old(coefficients))
    {
      r := CheckChipId(CHIP_ID_TRIES);
      if r.Fail? {
        return;
      }
      r := SoftReset();
      if r.Fail? {
        return;
      }
      r := WaitForImageRegisterUpdate(IMAGE_UPDATE_TRIES);
      if r.Fail? {
        return;
      }
      r := ReadCoefficients();
      if r.Fail? {
        return;
      }
      r := ConfigureSettings();
    }

    /** read: the raw data compensated with the coefficients; without coefficients the
        compensation fails (a TypeError in the source) after the data were read. */
    method Read() returns (r: Result<Reading, Error>)
      modifies bus
      ensures var raw := Protocol.ReadRawData(old(bus.State()), address);
        bus.State() == raw.bus &&
        (raw.result.Err? ==> r == Err(raw.result.error)) &&
        (raw.result.Ok? && coefficients.None? ==> r == Err(NoCoefficients)) &&
        (raw.result.Ok? && coefficients.Some? ==>
          r == Ok(CompensateRawData(raw.result.value, coefficients.value)))
      ensures r.Ok? ==> 0.0 <= r.value.humidity <= 100.0
    {
      var raw := ReadRawData();
      if raw.Err? {
        return Err(raw.error);
      }
      if coefficients.None? {
        return Err(NoCoefficients);
      }
      r := Ok(CompensateRawData(raw.value, coefficients.value));
    }
  }
}
