/**
 * Decoding of the telemetry registers: the state of charge from the SOC
 * register pair and the cell voltage from the VCELL register pair. Results
 * are exact reals; the single-precision rounding of the C++ code is not
 * modelled.
 */
module Telemetry {
  import opened Bus

  /**
   * The SOC register pair as one unsigned 16-bit count. The byte is promoted
   * to `int` before the shift, so `msb << 8` is `msb * 256` and cannot wrap.
   */
  function SocRaw(msb: Byte, lsb: Byte): (raw: int)
    ensures 0 <= raw < 0x1_0000
    ensures raw / 256 == msb && raw % 256 == lsb
  {
    msb * 256 + lsb
  }

  /**
   * State of charge in percent: 1/256 % per count for an 18-bit model,
   * 1/512 % for a 19-bit model, and 0 for any other `bits`.
   */
  function SocPercent(bits: Byte, msb: Byte, lsb: Byte): (r: real)
    ensures bits == 18 ==> r * 256.0 == SocRaw(msb, lsb) as real
    ensures bits == 19 ==> r * 512.0 == SocRaw(msb, lsb) as real
    ensures bits != 18 && bits != 19 ==> r == 0.0
  {
    if bits == 18 then SocRaw(msb, lsb) as real / 256.0
    else if bits == 19 then SocRaw(msb, lsb) as real / 512.0
    else 0.0
  }

  /**
   * The 12-bit VCELL count: the high byte above the top nibble of the low
   * byte. `msb << 4` has its low four bits clear and `lsb >> 4` is below 16,
   * so the bitwise or in the C++ code is this sum.
   */
  function VcellCount(msb: Byte, lsb: Byte): (count: int)
    ensures 0 <= count < 0x1000
    ensures count / 16 == msb && count % 16 == lsb / 16
  {
    msb * 16 + lsb / 16
  }

  /**
   * On 16-bit values below 256, as the two register bytes promoted in the
   * C++ expression, the bitwise or of `msb << 4` and `lsb >> 4` is the sum
   * `VcellCount` computes.
   */
  lemma VcellBitwise(msb: bv16, lsb: bv16)
    requires msb < 256 && lsb < 256
    ensures (msb << 4) | (lsb >> 4) == msb * 16 + lsb / 16
  {
  }

  /** Cell voltage in volts, 1.25 mV per count. */
  function Volts(msb: Byte, lsb: Byte): (v: real)
    ensures v * 800.0 == VcellCount(msb, lsb) as real
  {
    VcellCount(msb, lsb) as real / 800.0
  }

  /** Decoding the register bytes of a raw SOC count gives back that count, scaled. */
  lemma SocOfRaw(bits: Byte, raw: int)
    requires 0 <= raw < 0x1_0000
    ensures bits == 18 ==> SocPercent(bits, raw / 256, raw % 256) == raw as real / 256.0
    ensures bits == 19 ==> SocPercent(bits, raw / 256, raw % 256) == raw as real / 512.0
  {
  }

  /** For a valid model the percentage determines both register bytes. */
  lemma SocInjective(bits: Byte, m1: Byte, l1: Byte, m2: Byte, l2: Byte)
    requires bits == 18 || bits == 19
    requires SocPercent(bits, m1, l1) == SocPercent(bits, m2, l2)
    ensures m1 == m2 && l1 == l2
  {
    assert SocRaw(m1, l1) == SocRaw(m2, l2);
  }

  /** A larger register count never reads as a smaller percentage. */
  lemma SocMonotone(bits: Byte, m1: Byte, l1: Byte, m2: Byte, l2: Byte)
    requires SocRaw(m1, l1) <= SocRaw(m2, l2)
    ensures SocPercent(bits, m1, l1) <= SocPercent(bits, m2, l2)
  {
  }

  /** The percentage is not clamped to 100: its range is fixed by the scale alone. */
  lemma SocRange(bits: Byte, msb: Byte, lsb: Byte)
    ensures 0.0 <= SocPercent(bits, msb, lsb)
    ensures bits == 18 ==> SocPercent(bits, msb, lsb) < 256.0
    ensures bits == 19 ==> SocPercent(bits, msb, lsb) < 128.0
  {
  }

  /** 0x6400 on a 19-bit model and 0x3200 on an 18-bit model both read 50 %. */
  lemma SocHalf()
    ensures SocPercent(19, 0x64, 0x00) == 50.0
    ensures SocPercent(18, 0x32, 0x00) == 50.0
  {
  }

  /** The low nibble of the VCELL low byte never affects the voltage. */
  lemma VoltsIgnoreLowNibble(msb: Byte, l1: Byte, l2: Byte)
    requires l1 / 16 == l2 / 16
    ensures Volts(msb, l1) == Volts(msb, l2)
  {
  }

  /** Apart from that nibble, the voltage determines the register bytes. */
  lemma VoltsInjective(m1: Byte, l1: Byte, m2: Byte, l2: Byte)
    requires Volts(m1, l1) == Volts(m2, l2)
    ensures m1 == m2 && l1 / 16 == l2 / 16
  {
    assert VcellCount(m1, l1) == VcellCount(m2, l2);
  }

  /** Encoding a 12-bit count left-aligned in the register pair and decoding it is the identity. */
  lemma VcellOfCount(count: int)
    requires 0 <= count < 0x1000
    ensures VcellCount(count / 16, (count % 16) * 16) == count
    ensures Volts(count / 16, (count % 16) * 16) == count as real / 800.0
  {
  }

  /** Voltages lie between 0 V and 4095 counts of 1.25 mV. */
  lemma VoltsRange(msb: Byte, lsb: Byte)
    ensures 0.0 <= Volts(msb, lsb) <= 4095.0 / 800.0
  {
  }

  /** The bytes (0xA0, 0xA0) give the count 0xA0A = 2570, that is 3.2125 V. */
  lemma VoltsExample()
    ensures VcellCount(0xA0, 0xA0) == 2570
    ensures Volts(0xA0, 0xA0) == 3.2125
  {
  }
}
