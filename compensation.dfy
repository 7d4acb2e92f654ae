/** The floating-point compensation formulas of the BME280 datasheet (section 8.1),
    as compensateTemperature, compensateHumidity, compensatePressure and
    compensateRawData compute them, over exact reals. Of their results only the
    humidity clamp and the pressure's division-by-zero guard are stated; the
    formulas themselves are carried as written. */
module Compensation {
  import opened Calibration
  import opened AdcReadout

  /** What read() resolves to: degrees Celsius, hectopascals and percent relative humidity. */
  datatype Reading = Reading(temperature: real, pressure: real, humidity: real)

  /** compensateTemperature: the fine temperature t_fine the other two formulas use. It is
      a quadratic in the offset of the reading from 16 * dig_T1, the reading of 0 degrees:
      dig_T2 weighs the linear term and dig_T3 the square. */
  function CompensateTemperature(adcT: int, c: Coefficients): (tFine: real)
    ensures var offset := (adcT - 16 * c.t1) as real / 131072.0;
      tFine == 8.0 * offset * c.t2 as real + offset * offset * c.t3 as real
    ensures adcT == 16 * c.t1 ==> tFine == 0.0
  {
    var d := adcT as real / 131072.0 - c.t1 as real / 8192.0;
    (adcT as real / 16384.0 - c.t1 as real / 1024.0) * c.t2 as real + d * d * c.t3 as real
  }

  /** The humidity formula before the clamp. */
  function HumidityUnclamped(adcH: int, tFine: real, c: Coefficients): real
  {
    var h0 := tFine - 76800.0;
    var h1 := (adcH as real - (c.h4 as real * 64.0 + c.h5 as real / 16384.0 * h0)) *
      (c.h2 as real / 65536.0 * (1.0 + c.h6 as real / 67108864.0 * h0 * (1.0 + c.h3 as real / 67108864.0 * h0)));
    h1 * (1.0 - c.h1 as real * h1 / 524288.0)
  }

  /** compensateHumidity: the formula's value limited to [0, 100]; a value inside the
      range is kept, one above it becomes 100 and one below it 0. */
  function CompensateHumidity(adcH: int, tFine: real, c: Coefficients): (h: real)
    ensures 0.0 <= h <= 100.0
    ensures var u := HumidityUnclamped(adcH, tFine, c);
      (0.0 <= u <= 100.0 ==> h == u) && (u > 100.0 ==> h == 100.0) && (u < 0.0 ==> h == 0.0)
  {
    var h := HumidityUnclamped(adcH, tFine, c);
    if h > 100.0 then 100.0 else if h < 0.0 then 0.0 else h
  }

  /** The pressure formula's divisor, var1 at the point of the guard. */
  function PressureDivisor(tFine: real, c: Coefficients): real
  {
    var v := tFine / 2.0 - 64000.0;
    var v1 := (c.p3 as real * v * v / 524288.0 + c.p2 as real * v) / 524288.0;
    (1.0 + v1 / 32768.0) * c.p1 as real
  }

  /** compensatePressure, in pascals: 0 when the divisor is 0, which avoids the division
      by zero, and otherwise the datasheet's formula divided by that divisor. */
  function CompensatePressure(adcP: int, tFine: real, c: Coefficients): (p: real)
    ensures PressureDivisor(tFine, c) == 0.0 ==> p == 0.0
  {
    var v := tFine / 2.0 - 64000.0;
    var v2 := v * v * c.p6 as real / 32768.0;
    var v2' := v2 + v * c.p5 as real * 2.0;
    var v2'' := v2' / 4.0 + c.p4 as real * 65536.0;
    var divisor := PressureDivisor(tFine, c);
    if divisor == 0.0 then 0.0
    else
      var p0 := 1048576.0 - adcP as real;
      var p1 := (p0 - v2'' / 4096.0) * 6250.0 / divisor;
      var w1 := c.p9 as real * p1 * p1 / 2147483648.0;
      var w2 := p1 * c.p8 as real / 32768.0;
      p1 + (w1 + w2 + c.p7 as real) / 16.0
  }

  /** A device whose dig_P1 reads 0 always reports pressure 0 rather than dividing by zero. */
  lemma PressureZeroWithoutP1(adcP: int, tFine: real, c: Coefficients)
    ensures c.p1 == 0 ==> CompensatePressure(adcP, tFine, c) == 0.0
  {
    if c.p1 == 0 {
      var v := tFine / 2.0 - 64000.0;
      var v1 := (c.p3 as real * v * v / 524288.0 + c.p2 as real * v) / 524288.0;
      assert PressureDivisor(tFine, c) == (1.0 + v1 / 32768.0) * 0.0;
    }
  }

  /** compensateRawData: temperature t_fine / 5120, pressure in pascals / 100 and the
      clamped humidity, all three from the same t_fine. */
  function CompensateRawData(raw: RawData, c: Coefficients): (r: Reading)
    ensures 0.0 <= r.humidity <= 100.0
    ensures c.p1 == 0 ==> r.pressure == 0.0
  {
    var tFine := CompensateTemperature(raw.temperature, c);
    PressureZeroWithoutP1(raw.pressure, tFine, c);
    Reading(tFine / 5120.0,
            CompensatePressure(raw.pressure, tFine, c) / 100.0,
            CompensateHumidity(raw.humidity, tFine, c))
  }
}
