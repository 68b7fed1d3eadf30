/**
 * The driver's public types: the outcome of a protocol run and the battery
 * characterization record it is configured with.
 */
module Config {
  import opened Bus

  /** Outcome of `LoadConfig` and `VerifyModel`; there is no other. */
  datatype Status =
    | None    // success, no errors
    | Reload  // the model check failed and the model was reloaded
    | Io      // an error occurred while loading the model

  /** Integers that fit in the record's 32-bit unsigned OCV field. */
  type U32 = x: int | 0 <= x < 0x1_0000_0000

  /** The 64-byte model table, written in order from table address 0x40. */
  type Table = s: seq<Byte> | |s| == 64 witness seq(64, (i: int) => 0)

  /**
   * The characterization record. It is supplied by the caller and only read
   * by the driver.
   */
  datatype ModelConfig = ModelConfig(
    rcomp0: Byte,     // starting RCOMP value, written back after a load
    ocvTest: U32,     // test OCV value written while the model is checked
    socCheckA: Byte,  // lower end of the expected SOC high byte
    socCheckB: Byte,  // upper end of the expected SOC high byte
    bits: Byte,       // 18- or 19-bit model: selects the SOC scale
    modelData: Table)

  /** What the record promises its readers beyond its field types. */
  predicate WellFormed(cfg: ModelConfig)
  {
    cfg.socCheckA <= cfg.socCheckB && (cfg.bits == 18 || cfg.bits == 19) && cfg.ocvTest < 0x1_0000
  }

  /** The model table of the LG 21700 cell. */
  const Lg21700Data: seq<Byte> := [
    0x88, 0x70, 0xAA, 0x10, 0xAD, 0x90, 0xB0, 0x60, 0xB3, 0xF0, 0xB7, 0x00, 0xB8, 0xF0, 0xBC, 0x50,
    0xBF, 0xE0, 0xC2, 0x00, 0xC4, 0x60, 0xC7, 0x40, 0xCA, 0xD0, 0xCC, 0x40, 0xCD, 0x00, 0xDA, 0xC0,
    0x00, 0x40, 0x07, 0x00, 0x0C, 0x00, 0x10, 0x40, 0x13, 0x00, 0x1D, 0x60, 0x19, 0x20, 0x1A, 0xE0,
    0x13, 0xC0, 0x15, 0x80, 0x11, 0xC0, 0x13, 0x20, 0x3D, 0x00, 0x5E, 0x60, 0x01, 0x20, 0x01, 0x20]

  /** The built-in characterization of the LG 21700 cell, the default. */
  const Lg21700: ModelConfig := ModelConfig(
    rcomp0 := 92,
    ocvTest := 58560,
    socCheckA := 203,
    socCheckB := 205,
    bits := 19,
    modelData := Lg21700Data)

  lemma DefaultWellFormed()
    ensures WellFormed(Lg21700)
    ensures Lg21700.socCheckA < Lg21700.socCheckB && Lg21700.bits == 19
  {
  }
}
