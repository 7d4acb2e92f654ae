# BME280 driver core, modelled in Dafny

This project models the core of the `bme280` Node.js driver for the Bosch BME280
temperature, pressure and humidity sensor on an I2C bus (`bme280.js`). It covers:

- the check `open()` applies to its options;
- the `Bme280I2c` object and its bus protocol: the chip id check, the soft reset, the
  wait for the image register update, the coefficient read, the configuration writes,
  the raw data read, `initialize` and `read`;
- the register map and bit fields;
- the decoding of the calibration coefficients and the raw ADC values;
- the compensation formulas, of which the temperature formula's reference point, the
  humidity clamp and the pressure division-by-zero guard are stated.

Layout, one module per file:

- `bytes.dfy` (`Bytes`): bytes, and JavaScript's 32-bit bitwise operators on integral
  Numbers (`|`, `&`, `<<`, `>>`), with the lemmas that turn them into arithmetic.
- `registers.dfy` (`Registers`): register addresses, block lengths, the chip id, the
  reset command and the bit fields.
- `options.dfy` (`OpenOptions`): `validateOpenOptions` over a model of JavaScript values,
  and `options || {}`.
- `calibration.dfy` (`Calibration`): the coefficient record, its parse from the two
  register blocks, and an encoder used to state the round trip.
- `adc_readout.dfy` (`AdcReadout`): decoding of the 8 data registers, with an encoder
  for the round trip.
- `settings.dfy` (`Settings`): the values written to ctrl_hum, ctrl_meas and config.
- `bus.dfy` (`I2c`): the I2C bus as a scripted collaborator (`I2cBus`). Each reply
  comes from a script, and a trace records every transaction.
- `protocol.dfy` (`Protocol`): each `Bme280I2c` operation as a function of the bus
  state. The recursive promise chains become recursive functions. Lemmas state the
  retry bounds, the first-success and first-failure behaviour, and the order of the
  transactions.
- `compensation.dfy` (`Compensation`): compensation over exact reals.
- `driver.dfy` (`Driver`): class `Bme280I2c`, whose methods update the bus and the
  coefficients. Each method is proved to do what the `Protocol` function says, and the
  two retry loops are `while` loops with an attempt counter.

The source's JavaScript Numbers are modelled as unbounded integers wherever they hold
integers. The bitwise operators are modelled with their ToInt32 conversion. The
ctrl_hum and ctrl_meas values are computed on 8-bit vectors, and are proved equal to the
driver's expressions evaluated on 32-bit vectors, which is how JavaScript's `&`, `~`
and `|` work. Reals stand in for the compensation formulas' doubles.

A block read fills a zeroed buffer and `bytesRead` is never checked, so a short read
is not an error: the bytes that did not arrive read as 0. The model does the same
(`I2c.Fill`).

## Model

| member | source | states |
|---|---|---|
| OpenOptions.ValidateOpenOptions | bme280.js:95-121 | No error exactly when the options are an object whose i2cBusNumber is absent or a non-negative safe integer and whose i2cAddress is absent or a safe integer in 0..0x7f. A non-object is reported with its typeof, null as null. A bad bus number is reported with its value. A bad address after an accepted bus number is reported with the address's value. |
| OpenOptions.BusNumberCheckedFirst | bme280.js:101-108 | A bad bus number is the error reported, whatever the address. |
| OpenOptions.OrEmpty | bme280.js:75 | `options \|\| {}` yields an object or a value whose typeof is not "object". An object is passed on unchanged; undefined and null become the empty object. |
| OpenOptions.OpenNeverValidatesNull | bme280.js:75-76 | After `options \|\| {}` the check never sees null, and no options at all are accepted. |
| OpenOptions.AcceptedOptionsInRange | bme280.js:101-118 | An accepted address is an integer in 0..0x7f, and an accepted bus number is a natural number. |
| Bytes.BitOr | bme280.js:207-208 | The bitwise OR of two naturals is at least each operand and at most their sum. |
| Bytes.BitAnd | bme280.js:207 | The bitwise AND of two naturals is at most each operand. |
| Bytes.JsOr | bme280.js:207-208 | `a \| b` is a signed 32-bit value. On operands in [0, 2^31) it is their bitwise OR, between the larger operand and the sum. |
| Bytes.JsAnd | bme280.js:207 | `a & b` is a signed 32-bit value. On operands in [0, 2^31) it is their bitwise AND, at most each operand. |
| Bytes.JsShl | bme280.js:238-240 | `a << n` is a signed 32-bit value congruent to a * 2^n modulo 2^32. |
| Bytes.JsShr | bme280.js:208 | `a >> n` is the floor of ToInt32(a) / 2^n. |
| Bytes.ToInt32 | bme280.js:207-208 | The 32-bit conversion of the bitwise operators lands in [-2^31, 2^31) and is congruent to its input modulo 2^32. |
| Bytes.BitOrDisjoint | bme280.js:207-208 | OR of a value with clear low k bits and a value below 2^k is their sum (induction on k). |
| Bytes.ShiftOrDisjoint | bme280.js:238-240 | `hi << k \| lo` with lo below 2^k equals hi * 2^k + lo while it stays below 2^31. |
| Bytes.SignedNibbleOr | bme280.js:207-208 | `s * 16 \| nib` for a signed byte s and a nibble is the 12-bit two's-complement number with high byte s and low nibble nib. |
| Bytes.LowNibble | bme280.js:207 | `x & 0xf` is x mod 16 for a byte. |
| Bytes.HighNibble | bme280.js:208 | `x >> 4` is x div 16 for a byte. |
| Bytes.TwosComplement | bme280.js:190-209 | The signed reading of an unsigned field lies in the signed range, agrees with the field modulo its width, and is negative exactly when the top bit is set. |
| Bytes.U16LE | bme280.js:190 | readUInt16LE: lo + 256 * hi, within 0..0xffff. |
| Bytes.S16LE | bme280.js:191 | readInt16LE: the two's-complement reading of lo + 256 * hi. |
| Bytes.S8 | bme280.js:207 | readInt8: the two's-complement reading of a byte. |
| Bytes.S16LERoundTrip | bme280.js:191 | Reading back the little-endian bytes of a signed 16-bit value gives the value. |
| Calibration.PackedH4 | bme280.js:207 | dig_H4 is the 12-bit signed value whose high byte is register 0xE4 and whose low nibble is the low nibble of 0xE5. |
| Calibration.PackedH5 | bme280.js:208 | dig_H5 is the 12-bit signed value whose high byte is register 0xE6 and whose low nibble is the high nibble of 0xE5. |
| Calibration.ParseCoefficients | bme280.js:188-209 | Every coefficient is in its register width's range. t1 and p1 are the little-endian bytes at offsets 0 and 6. h1 is register 0xA1 and h3 is 0xE3. h4 and h5 split the nibbles of 0xE5. |
| Calibration.ParseEncode | bme280.js:188-209 | Parsing the registers of a device whose coefficients are in range gives back those coefficients. |
| Calibration.EncodeParse | bme280.js:188-209 | Encoding the parsed coefficients rebuilds both blocks, except the reserved register 0xA0: the parse reads every other byte. |
| Calibration.PackedRoundTrip | bme280.js:207-208 | Splitting dig_H4 and dig_H5 back into registers gives the bytes at 0xE4, 0xE5 and 0xE6, so the shared byte 0xE5 loses no bit. |
| AdcReadout.Adc20 | bme280.js:238-239 | `msb << 12 \| lsb << 4 \| xlsb >> 4` is msb*4096 + lsb*16 + xlsb div 16, is below 2^20, and gives back msb, lsb and the high nibble of xlsb. |
| AdcReadout.Adc16 | bme280.js:240 | `msb << 8 \| lsb` is msb*256 + lsb, is below 2^16, and gives back both bytes. |
| AdcReadout.DecodeRawData | bme280.js:237-241 | Pressure and temperature are 20-bit values and humidity a 16-bit value. |
| AdcReadout.Adc20RoundTrip | bme280.js:238-239 | Decoding the three register bytes laid out for a 20-bit value gives the value. |
| AdcReadout.DecodeEncode | bme280.js:237-241 | Decoding the register block of a device holding given raw values returns them. |
| AdcReadout.EncodeDecode | bme280.js:237-241 | The decoder keeps every bit of the block except the low nibbles of press_xlsb and temp_xlsb. |
| AdcReadout.DecodeInjective | bme280.js:237-241 | Two blocks decode alike exactly when they differ at most in those two unused nibbles. |
| Settings.CtrlHumValue | bme280.js:215-218 | The ctrl_hum value has osrs_h = 001 (bits 0..2) and keeps bits 3..7 of the byte read. |
| Settings.CtrlHumIdempotent | bme280.js:215-218 | Recomputing ctrl_hum from a value it produced gives that value again. |
| Settings.CtrlMeasValue | bme280.js:219-226 | The ctrl_meas value is always 0x57: osrs_t x2, osrs_p x16, normal mode, whatever was read. |
| Settings.CtrlHumMatchesJs | bme280.js:215-218 | The driver's `(ctrlHumReg & ~OSRS_H_BITS) \| OSRS_H_X1` on 32-bit vectors gives CtrlHumValue for every byte read. |
| Settings.CtrlMeasMatchesJs | bme280.js:219-226 | The driver's ctrl_meas expression on 32-bit vectors gives CtrlMeasValue for every byte read. |
| Settings.ConfigValueFields | bme280.js:227 | config is 0x10: filter x16, t_sb 0, spi3w_en 0. |
| I2c.Fill | bme280.js:178-187 | The buffer after a block read has the requested length, the received bytes at its front and zeros after them. |
| I2c.I2cBus.ReadByte | bme280.js:130-132 | The next scripted byte answer; one ByteRead is appended to the trace. |
| I2c.I2cBus.WriteByte | bme280.js:134-136 | The next scripted acknowledgement; one ByteWrite is appended to the trace. |
| I2c.I2cBus.ReadI2cBlock | bme280.js:138-142 | The zero-filled buffer with the next scripted block at its front; one BlockRead is appended to the trace. |
| Protocol.ChipIdVerdict | bme280.js:146-153 | One attempt passes exactly when the read returns 0x60. A read error fails it with that error, and a wrong id fails it with that id. |
| Protocol.CheckChipId | bme280.js:144-159 | checkChipId makes at least one and at most max(tries, 1) byte reads and changes no other counter. A failure is a bus error or a wrong chip id. |
| Protocol.CheckChipIdReads | bme280.js:144-159 | checkChipId makes between 1 and max(tries, 1) reads of register 0xD0 and no other transaction. |
| Protocol.CheckChipIdOutcome | bme280.js:144-159 | Every attempt before the last failed. The result is the last attempt's verdict. A failure comes only after all attempts, with the last attempt's error, including a read error, which is retried too. |
| Protocol.CheckChipIdSucceeds | bme280.js:144-159 | checkChipId succeeds exactly when one of its first max(tries, 1) reads returns 0x60. |
| Protocol.SoftReset | bme280.js:161-163 | softReset adds exactly one write, 0xB6 to register 0xE0, to the bus. It passes exactly when that write is acknowledged, and otherwise fails with the bus error. |
| Protocol.ImageUpdatingIsOdd | bme280.js:169 | im_update is set exactly when the status byte is odd. |
| Protocol.WaitForImageRegisterUpdate | bme280.js:165-176 | The wait makes at least one and at most max(tries, 1) byte reads and changes no other counter. A failure is a bus error or "Image register update failed". |
| Protocol.WaitReads | bme280.js:165-176 | The wait makes between 1 and max(tries, 1) reads of register 0xF3 and no other transaction. |
| Protocol.WaitOutcome | bme280.js:165-176 | Every read before the last found im_update set. The last read decides: a read error fails the wait at once (no retry), a clear bit passes it, and a set bit fails it with "Image register update failed", only after the last allowed read. |
| Protocol.WaitTimesOut | bme280.js:165-176 | The wait fails with "Image register update failed" exactly when all max(tries, 1) reads find im_update set. |
| Protocol.ReadCoefficients | bme280.js:178-212 | readCoefficients makes one or two block reads, two when it succeeds, and no byte read or write. A failure is a bus error. |
| Protocol.ReadCoefficientsOutcome | bme280.js:178-212 | The read succeeds exactly when both block reads succeed, and then returns the parse of the two buffers. A failed first block read fails it with that read's error after one block read. A failed second read fails it with the second read's error. The 7-byte block is read only after the 26-byte one succeeded. |
| Protocol.ConfigureSettings | bme280.js:214-228 | configureSettings makes one or two byte reads and at most three writes, exactly two and three when it passes, and no block read. A failure is a bus error. |
| Protocol.ConfigureSettingsTrace | bme280.js:214-228 | configureSettings issues the first k (1 <= k <= 5) of: read ctrl_hum, write ctrl_hum, read ctrl_meas, write 0x57, write config 0x10. The answers to the first k - 1 are not errors. If the k-th answer is an error, the result is that bus error; otherwise k = 5 and the result is a pass. A failure is the answer to the last transaction issued. |
| Protocol.ReadRawData | bme280.js:230-243 | readRawData adds exactly one block read of 8 bytes at 0xF7. It succeeds exactly when that read does, with values in range, and otherwise fails with the bus error. |
| Protocol.Initialize | bme280.js:304-310 | initialize keeps the script. A pass leaves coefficients set, and changed coefficients are set ones. A failure is never the missing-coefficients error. |
| Protocol.InitFrontSteps | bme280.js:304-307 | After a passing chip id check and reset, the bus has gained n1 chip id reads, the reset write and n2 status reads and nothing else, with 1 <= n1, n2 <= 5. n1 and n2 are the numbers of byte reads the chip id check and the wait made. |
| Protocol.AfterCalibration | bme280.js:304-308 | After n1 chip id reads, the reset, n2 status reads and a successful coefficient read, the bus has gained exactly those transactions and the two block reads, and n1 + n2 byte reads. |
| Protocol.StepsTrace | bme280.js:304-310 | When the first four steps passed and configureSettings passes, the trace is the full protocol sequence, with ctrl_hum made from the byte answer after the n1 + n2 chip id and status reads. |
| Protocol.CoefficientsFromBlocks | bme280.js:178-212 | A successful coefficient read from a state with the same script and block-read count as s returns the parse of the next two blocks from s, and both arrive. |
| Protocol.InitializeSuccess | bme280.js:304-310 | A successful initialize issued exactly: n1 chip id reads, the reset, n2 status reads, the two calibration blocks, then the configuration, with 1 <= n1, n2 <= 5. Its ctrl_hum write uses the byte answer after those n1 + n2 reads. Its coefficients are those parsed from the two blocks. Every answer let it go on: the first n1 - 1 chip id reads failed the check and the n1-th returned 0x60, the reset was acknowledged, the first n2 - 1 status reads found im_update set and the n2-th found it clear, and both block reads and all five configuration answers came without error. |
| Protocol.InitializeSucceeds | bme280.js:304-310 | initialize passes if and only if, for some n1, n2 <= 5, the answers to its n1 + n2 + 8 transactions are as InitializeSuccess lists them. So a failed reset acknowledgement, a status read error, a failed block read or a failed configuration answer in that place rules out a pass. |
| Protocol.PassesFromAnswers | bme280.js:304-310 | Answers that each let initialize go on make it pass (the converse half of InitializeSucceeds). |
| Protocol.InitializeFailure | bme280.js:304-310 | A failed initialize issued a prefix (possibly all) of that sequence, with 1 <= n1, n2 <= 5. It stops after the transaction whose answer failed it, and the answers to every earlier transaction let it go on. The failure is that answer's bus error, the wrong id of the fifth chip id read, or im_update still set at the fifth status read. |
| Protocol.WritesAppend | bme280.js:304-310 | The writes of a concatenated trace are the writes of each part, in order. |
| Protocol.WritesOfConfigure | bme280.js:214-228 | configureSettings writes ctrl_hum, then ctrl_meas = 0x57, then config = 0x10. |
| Protocol.WritesOfInitTrace | bme280.js:304-310 | Of the full protocol sequence only the reset, ctrl_hum, ctrl_meas and config transactions write. |
| Protocol.InitializeWrites | bme280.js:304-310 | A successful initialize writes four times, in order: the reset command 0xB6 to 0xE0, ctrl_hum (made from the byte answer after the chip id and status reads), ctrl_meas = 0x57 and config = 0x10. |
| Protocol.InitializeChipIdFailure | bme280.js:305 | A failed chip id check ends initialize with that failure after exactly five reads. Nothing is written and the coefficients are unchanged. |
| Protocol.InitializeResetFailure | bme280.js:306 | After a passing chip id check, a failed reset ends initialize with the bus error that answered the reset write. No later step runs and the coefficients are unchanged. |
| Protocol.InitializeWaitFailure | bme280.js:307 | After a passing chip id check and reset, a failed wait ends initialize with the wait's failure, before any block read. The reset is the only write and the coefficients are unchanged. The failure is the timeout exactly when all five status reads find im_update set; otherwise it is a status read error. |
| Protocol.InitializeCalibrationFailure | bme280.js:308 | After the first three steps pass, a failed coefficient read ends initialize with that read's bus error. Nothing is configured and the coefficients are unchanged. |
| Protocol.InitializeConfigureFailure | bme280.js:309 | After the first four steps pass, a failed configureSettings ends initialize with its bus error. The coefficients just parsed from the two blocks are kept. |
| Protocol.InitializeCoefficients | bme280.js:178-212 | initialize changes the coefficients only to the parse of both blocks. With fewer than two block reads the coefficients are unchanged and at most the reset was written. |
| Compensation.CompensateTemperature | bme280.js:245-250 | t_fine is dig_T2 times 8 times the offset plus dig_T3 times the offset squared, where the offset is (adc_T - 16 * dig_T1) / 2^17. It is 0 at adc_T = 16 * dig_T1. |
| Compensation.CompensateHumidity | bme280.js:252-267 | Humidity lies in [0, 100]. A formula value inside the range is kept; one above becomes 100 and one below becomes 0. |
| Compensation.CompensatePressure | bme280.js:269-290 | The pressure is 0 when the divisor var1 is 0, and the division is never reached then. |
| Compensation.PressureZeroWithoutP1 | bme280.js:276-281 | With dig_P1 = 0 the pressure is always 0. |
| Compensation.CompensateRawData | bme280.js:292-302 | The reported humidity is in [0, 100], and the pressure is 0 when dig_P1 is 0. |
| Driver.Bme280I2c.constructor | bme280.js:124-128 | A new driver holds the bus and the address, and has no coefficients. |
| Driver.Bme280I2c.CheckChipId | bme280.js:144-159 | The loop's answer and bus state are those of Protocol.CheckChipId. |
| Driver.Bme280I2c.SoftReset | bme280.js:161-163 | The answer and bus state are those of Protocol.SoftReset. |
| Driver.Bme280I2c.WaitForImageRegisterUpdate | bme280.js:165-176 | The loop's answer and bus state are those of Protocol.WaitForImageRegisterUpdate. |
| Driver.Bme280I2c.ReadCoefficients | bme280.js:178-212 | The bus state is that of Protocol.ReadCoefficients. The coefficients are replaced by its parse when both reads succeed, and are otherwise unchanged. |
| Driver.Bme280I2c.ConfigureSettings | bme280.js:214-228 | The answer and bus state are those of Protocol.ConfigureSettings. |
| Driver.Bme280I2c.ReadRawData | bme280.js:230-243 | The answer and bus state are those of Protocol.ReadRawData, and the decoded values are in range. |
| Driver.Bme280I2c.Initialize | bme280.js:304-310 | The answer, the coefficients and the bus state are those of Protocol.Initialize. |
| Driver.Bme280I2c.Read | bme280.js:316-319 | Reads the raw data, then compensates it with the coefficients; a bus error passes through unchanged. The humidity is in [0, 100]. |

## Left out

- The I2C transport (the `i2c-bus` native library) is not modelled. In its place is a
  script of replies and a trace of transactions. `close()`, `i2c.openPromisified` and
  the defaulting of the bus number and address in `open()` are left out.
- Timing is left out: `delay()` before each chip id retry and before each status read,
  and the promise scheduling. Each promise chain becomes a sequence of steps that stops
  at the first rejection.
- The `Bme280` wrapper only forwards `read` and `close`, so it is not modelled.
- The error messages are not modelled as text. Each error is a datatype case that keeps
  the value the message reports.
- `typeof` of symbols and BigInts is not modelled. JavaScript values are reduced to what
  `validateOpenOptions` can tell apart.
- Compensation: the formulas are evaluated over exact reals, not IEEE doubles. Rounding,
  NaN and infinities are not modelled. Only the temperature formula's shape and
  reference point, the humidity clamp and the pressure guard are stated.
- Forced measurement (`forcedMode`, `triggerForcedMeasurement`), the measurement-time
  functions and configurable oversampling, filter and standby belong to the later API
  that `bme280.d.ts` declares and `test/forced-read.js` uses. This `bme280.js` does not
  implement them, so they are not modelled. Oversampling and filter are fixed constants.
- The device's reaction to the writes is not modelled. The code writes ctrl_hum, then
  ctrl_meas (which selects normal mode), then config. Section 5.4.6 of the BME280
  datasheet says writes to config in normal mode may be ignored. The model issues the
  writes in the code's order, and there is no settle delay after initialization.
- When every chip id attempt fails, the code rejects with the last attempt's error: a
  wrong id, or the bus error. It does not use a dedicated mismatch error. The model
  follows the code.
- Settings.CtrlHumMatchesJs, Settings.CtrlMeasMatchesJs: the 32-bit expressions are
  stated on 32-bit vectors, not through `Bytes.JsAnd` and `Bytes.JsOr`. That these two
  descriptions of the operators agree is not proved.
- Calling `read` before the coefficients are set is modelled as the error
  `NoCoefficients`. In the code, dereferencing `null` raises a TypeError.
