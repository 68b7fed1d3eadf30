# MAX17043 ModelGauge driver, modelled in Dafny

This project models the driver for the Maxim MAX17043 "ModelGauge" fuel gauge
(`ModelGauge` in `src/model_gauge.cpp` and `src/model_gauge.h`) and proves
properties of the model. The driver is a strictly sequential register
protocol over two primitives, `read_word` and `write_word`, and almost
everything it does can be observed as a log of register transactions.

- **`Bus`** (`bus.dfy`) defines the chip as the driver sees it. `Device` is a
  class holding:
  - an oracle `answer`: the n-th read transaction returns `answer(n)`,
    whatever the register;
  - the number of reads answered so far;
  - a ghost log of every transaction (`Write`, `Read`, `Block`, `Delay`).

  `Regs()` is the byte-addressed register file that the logged writes leave
  behind. `Apply`, `Count` and `Transactions` read a log.
- **`Config`** (`config.dfy`) defines:
  - the status enum;
  - the characterization record and its documented constraints
    (`WellFormed`);
  - the default LG 21700 record.
- **`Telemetry`** (`telemetry.dfy`) holds the `get_soc` and `get_volt`
  decoders, as exact reals.
- **`Loader`** (`loader.dfy`) specifies `load_config` as functions of the
  configuration, the oracle and the number `k` of reads before the call:
  - `LoadTrace`, the log the call issues;
  - `LoadReads`, the number of reads it makes;
  - `LoadStatus`, the status it returns.

  The unlock retry loop is described by `Failures`, the length of the run of
  0xFFFF answers, cut off at `SetupRetries + 1`.
- **`Verifier`** (`verifier.dfy`) specifies `verify_model` in the same terms:
  `VerifyTrace`, `VerifyReads` and `VerifyStatus`.
- **`Driver`** (`driver.dfy`) is the `ModelGauge` class:
  - it has an immutable configuration and the device;
  - its methods are written as the C++ is: the retry `while` loop, the nested
    table loops and the fixed write sequences;
  - each method is proved to issue exactly the specified log, make the
    specified number of reads and return the specified status;
  - because `Regs()` is a function of the log, each method leaves the
    register file as its log leaves it. The four public methods
    (`LoadConfig`, `VerifyModel`, `GetSoc`, `GetVolt`) state this in their
    contracts.
- **`Registers`**, **`LoadFacts`** and **`VerifyFacts`** prove what the
  specified logs mean:
  - the unlock bound and when the call gives up;
  - which writes each path issues, and in what order;
  - the status on every path;
  - the register contents each path leaves.

Two behaviours of the code are easy to misread; both are modelled as
written:

- **The unlock loop gives up one attempt early.** The retry constant
  `ModelGaugeSetupRetries` is 100 (`src/model_gauge.cpp` line 28). The loop
  runs while `0 <= retries`, counting down from 100, so it makes up to 101 attempts.
  The test after the loop is `0 >= retries`. A call whose first success comes
  on the 101st attempt therefore returns IO, and leaves model access unlocked
  with no lock write (`LastAttemptGivesUp`, `GiveUpEffect`).
- **RCOMP is not restored.** The comment "restore CONFIG and OCV" (line 140)
  stands above a write of `RCOMP0`. `load_config` does not write back the
  RCOMP value from before the call (`ProgramEffect`).

## Model

| member | source | states |
|---|---|---|
| Bus.Device.ReadWord | src/model_gauge.cpp:214-226 | one read transaction: the reply is the oracle's next answer, the read counter advances by one and the read is logged |
| Bus.Device.WriteWord | src/model_gauge.cpp:228-238 | one write transaction of a register pair, logged, no read issued |
| Bus.Device.WriteBlock | src/model_gauge.cpp:108-114 | one transmission of consecutive bytes from a start register, logged as a single block |
| Bus.Device.Delay | src/model_gauge.cpp:118-125 | a wait is logged with its length at its place in the order, and makes no read |
| Config.DefaultWellFormed | src/model_gauge.h:48-64 | the default record satisfies the documented constraints: SOCCheckA <= SOCCheckB (203 < 205), bits is 19, and OCVTest 58560 fits in 16 bits |
| Telemetry.SocRaw | src/model_gauge.cpp:162 | `(msb << 8) + lsb` lies in [0, 65535], and its high and low bytes are msb and lsb |
| Telemetry.SocPercent | src/model_gauge.cpp:154-169 | result * 256 is the raw count when bits is 18, result * 512 when bits is 19, and the result is 0 for any other bits |
| Telemetry.VcellCount | src/model_gauge.cpp:177 | the bitwise or of `msb << 4` and `lsb >> 4` lies in [0, 4095], with msb above the top nibble of lsb |
| Telemetry.VcellBitwise | src/model_gauge.cpp:177 | on bytes promoted to 16 bits, the bitwise OR of `msb` shifted left by 4 and `lsb` shifted right by 4 equals `msb * 16 + lsb / 16`, the sum `VcellCount` computes |
| Telemetry.Volts | src/model_gauge.cpp:171-179 | result * 800 is the 12-bit VCELL count |
| Telemetry.SocOfRaw | src/model_gauge.cpp:160-167 | decoding the two bytes of a raw count gives that count divided by 256 or by 512 |
| Telemetry.SocInjective | src/model_gauge.cpp:160-167 | for an 18- or 19-bit model, equal percentages come from equal register bytes |
| Telemetry.SocMonotone | src/model_gauge.cpp:160-167 | a larger raw count never gives a smaller percentage |
| Telemetry.SocRange | src/model_gauge.cpp:160-167 | the percentage is not clamped: it lies in [0, 256) for 18 bits and in [0, 128) for 19 bits |
| Telemetry.SocHalf | src/model_gauge.cpp:160-167 | 0x6400 at 19 bits and 0x3200 at 18 bits both decode to 50 % |
| Telemetry.VoltsIgnoreLowNibble | src/model_gauge.cpp:177 | the low nibble of the VCELL low byte never affects the voltage |
| Telemetry.VoltsInjective | src/model_gauge.cpp:177-178 | equal voltages come from equal msb and equal top nibbles of lsb |
| Telemetry.VcellOfCount | src/model_gauge.cpp:177-178 | a 12-bit count stored left-aligned in the register pair decodes back to itself, over 800 |
| Telemetry.VoltsRange | src/model_gauge.cpp:176-178 | the voltage lies between 0 and 4095 / 800 V |
| Telemetry.VoltsExample | src/model_gauge.cpp:176-178 | the bytes (0xA0, 0xA0) give the count 2570, that is 3.2125 V |
| Loader.LockedRunSpec | src/model_gauge.cpp:70-92 | every answer in the run of 0xFFFF answers is 0xFFFF, and the answer after it, if within the cut-off, is not: the loop's failed attempts |
| Loader.UnlockFinished | src/model_gauge.cpp:68-92 | whichever way the loop ends, the counter afterwards is `SetupRetries - Failures`, the log is the unlock stage, and the OCV bytes kept are those of the last attempt |
| Loader.LoadGaveUp | src/model_gauge.cpp:94-96 | when the counter is not positive, the call's log is the unlock stage alone, and it returns IO |
| Loader.LoadSocRead | src/model_gauge.cpp:129 | after a successful unlock stage, the next read is the SOC check, and it is the call's last read |
| Loader.LoadProceeded | src/model_gauge.cpp:98-151 | past the unlock stage, the log is the unlock stage followed by the program stage; the status is NONE when the SOC byte is in band and IO otherwise |
| Verifier.VerifyAccepted | src/model_gauge.cpp:197-209 | an accepting call's log is the check stage, the two write-backs and the lock write; it reads three times and returns NONE |
| Verifier.VerifyRejected | src/model_gauge.cpp:203-209 | a rejecting call's log is the check stage, a whole `load_config` log and the lock write; it reads `3 + LoadReads` times and returns RELOAD |
| LoadFacts.FailedAttemptsShape | src/model_gauge.cpp:73-84 | n failed attempts are 3n transactions in turn: unlock write, OCV read answered in order, and a 100 ms wait |
| LoadFacts.UnlockTraceShape | src/model_gauge.cpp:70-92 | the unlock stage is the failed attempts, followed by the unlock write and OCV read of a successful attempt when there is one |
| LoadFacts.FailedAttemptsCount | src/model_gauge.cpp:73 | n failed attempts contain exactly n unlock writes |
| LoadFacts.UnlockAttempts | src/model_gauge.cpp:68-92 | the unlock stage has as many unlock writes as OCV reads, and at most 101 |
| LoadFacts.GivesUpIff | src/model_gauge.cpp:68-96 | the call gives up exactly when each of the first 100 OCV reads shows 0xFFFF |
| LoadFacts.LastAttemptGivesUp | src/model_gauge.cpp:89-95 | when the 101st attempt is the first to succeed, the call still returns IO, and its log ends with that attempt's unlock write and OCV read |
| LoadFacts.UnlockOps | src/model_gauge.cpp:70-92 | the unlock stage has only unlock writes, OCV reads and 100 ms waits, and no lock write |
| LoadFacts.UnlockKeeps | src/model_gauge.cpp:70-92 | the unlock stage changes no register byte outside LOCK |
| LoadFacts.UnlockOpen | src/model_gauge.cpp:73 | after the unlock stage, whatever its outcome, LOCK holds 0x4A57 |
| LoadFacts.GiveUpEffect | src/model_gauge.cpp:94-96 | when the call gives up, nothing is written to RCOMP, OCV or the table, and there is no lock write; LOCK is left at 0x4A57 and every other byte is unchanged |
| LoadFacts.OriginalOcvIsLastRead | src/model_gauge.cpp:76-89 | the OCV bytes written back are those read by the successful attempt, which was not 0xFFFF; all earlier reads were 0xFFFF |
| LoadFacts.TableBlocksAreBlocks | src/model_gauge.cpp:106-115 | the table stage is n transactions, each a block write |
| LoadFacts.TableTransmissions | src/model_gauge.cpp:104-116 | the table goes out as exactly four 16-byte blocks at 0x40, 0x50, 0x60 and 0x70, whose bytes concatenate to the 64 model bytes in order |
| LoadFacts.TableEffect | src/model_gauge.cpp:106-115 | after n blocks, the first 16n table registers hold the model bytes |
| LoadFacts.TableKeeps | src/model_gauge.cpp:106-115 | the table stage changes no byte outside the 64 table registers |
| LoadFacts.OcvSplit | src/model_gauge.cpp:122 | `((x >> 8) & 0xFF) * 256 + (x & 0xFF)` is x mod 65536, and is x itself when x < 65536 |
| LoadFacts.DefaultOcvBytes | src/model_gauge.h:54 | the default test value 58560 is sent as 0xE4, 0xC0 |
| LoadFacts.ProgramTransactions | src/model_gauge.cpp:101-146 | leaving out the waits, the program stage is: RCOMP to 0xFF00, the table, the OCV test value, the SOC read, RCOMP to RCOMP0, OCV to the original bytes, the lock write |
| LoadFacts.ProgramEffect | src/model_gauge.cpp:141-146 | after the program stage, RCOMP holds (RCOMP0, 0), not its earlier value; OCV holds the original bytes; LOCK holds 0 |
| LoadFacts.ProgramTable | src/model_gauge.cpp:104-149 | after the program stage, the table registers hold the model bytes |
| LoadFacts.ProgramCounts | src/model_gauge.cpp:101-149 | the program stage has exactly one lock write and no unlock write |
| LoadFacts.ProgramLoaded | src/model_gauge.cpp:101-149 | whatever came before it, the program stage leaves a loaded register file |
| LoadFacts.LoadCounts | src/model_gauge.cpp:68-149 | a call has as many unlock writes as unlock reads, at most 101; it has one lock write when it gets past unlocking and none otherwise |
| LoadFacts.LoadStatusSpec | src/model_gauge.cpp:94-138 | the call returns only NONE or IO; NONE exactly when unlocking succeeds within the first 100 attempts and SOCCheckA <= SOC msb <= SOCCheckB (inclusive); IO exactly when the first 100 OCV reads are all 0xFFFF, or the byte is out of band |
| LoadFacts.LoadWriteOrder | src/model_gauge.cpp:98-149 | past unlocking, the transactions in order are the unlock attempts followed by the fixed program sequence. The SOC read is the read after the successful attempt; the OCV restore writes that attempt's bytes; the restore and lock writes come whatever the SOC check decides |
| LoadFacts.LoadedRelock | src/model_gauge.cpp:209 | writing the lock word again leaves a loaded register file loaded |
| LoadFacts.ProgramKeeps | src/model_gauge.cpp:101-149 | the program stage changes no byte outside RCOMP, OCV, LOCK and the 64 table registers |
| LoadFacts.LoadKeeps | src/model_gauge.cpp:65-152 | a call that gets past unlocking changes no byte outside RCOMP, OCV, LOCK and the 64 table registers |
| LoadFacts.LoadEffect | src/model_gauge.cpp:98-149 | past unlocking: RCOMP = (RCOMP0, 0); OCV = the bytes of the successful attempt; LOCK = 0; the table holds the model bytes; all of this whatever the SOC check decides |
| VerifyFacts.VerifyStatusSpec | src/model_gauge.cpp:183-208 | the call returns only NONE or RELOAD; NONE exactly when SOCCheckA < SOC msb <= SOCCheckB (strict below) |
| VerifyFacts.VerifyStatusIgnoresReload | src/model_gauge.cpp:203-208 | the status depends on the SOC read alone; a rejecting call reports RELOAD whatever the nested reload returned |
| VerifyFacts.BandBoundaries | src/model_gauge.cpp:130-197 | the two bands differ only at SOCCheckA, which passes loading but fails verification; with SOCCheckA == SOCCheckB, every verification reloads |
| VerifyFacts.VerifyEndsLocked | src/model_gauge.cpp:209 | the last transaction is always the lock write, so LOCK ends at 0 |
| VerifyFacts.CheckEffect | src/model_gauge.cpp:188-196 | after the check stage: LOCK is open; OCV holds the test value; RCOMP holds the bytes just read from it; every other byte is unchanged |
| VerifyFacts.CheckCounts | src/model_gauge.cpp:188-196 | the check stage makes one unlock write and no lock write |
| VerifyFacts.VerifyCounts | src/model_gauge.cpp:188-209 | a call has 1 + (reload's) unlock writes. It has 2 lock writes when it rejects and the reload gets past unlocking; otherwise 1 |
| VerifyFacts.VerifyAcceptEffect | src/model_gauge.cpp:197-209 | on accept: RCOMP and OCV get back the bytes read at the start, and LOCK is 0. Bytes outside RCOMP, OCV and LOCK are unchanged. When those reads showed the register file's own bytes, everything but LOCK is as before |
| VerifyFacts.VerifyReloadEffect | src/model_gauge.cpp:203-209 | on reject, when the reload gets past unlocking, the registers are left loaded: RCOMP0, the reload's OCV bytes, the model table, and LOCK 0; every other byte keeps its value |
| VerifyFacts.VerifyGiveUpEffect | src/model_gauge.cpp:203-209 | on reject, when the reload gives up: OCV keeps the test value; RCOMP keeps the bytes read; LOCK is 0; every other byte is unchanged, so the model is not reloaded |
| Driver.ModelGauge.constructor | src/model_gauge.h:76 | the driver keeps the given configuration, by default the LG 21700 record, as an immutable field |
| Driver.ModelGauge.TryUnlock | src/model_gauge.cpp:72-76 | one unlock attempt: the unlock write to LOCK, then one OCV read whose reply is returned |
| Driver.ModelGauge.UnlockLoop | src/model_gauge.cpp:68-92 | the retry loop: the counter ends in [-1, 100]; exactly the first 100 - counter reads show 0xFFFF; the log is those failed attempts plus the successful one, if any |
| Driver.ModelGauge.Unlock | src/model_gauge.cpp:68-92 | the retry loop issues the unlock-stage log; its counter ends at `SetupRetries - Failures`; it keeps the successful attempt's OCV bytes |
| Driver.ModelGauge.WriteTable | src/model_gauge.cpp:104-116 | the nested loops issue the four table blocks, in order, and no read |
| Driver.ModelGauge.ApplyTestOcv | src/model_gauge.cpp:100-125 | RCOMP to 0xFF00, the four table blocks, a 150 ms wait, the OCV test value split into its two bytes, and a 150 ms wait, with no read |
| Driver.ModelGauge.Program | src/model_gauge.cpp:98-151 | issues the program-stage log and one read; returns NONE exactly when the SOC byte is in the inclusive band |
| Driver.ModelGauge.LoadConfig | src/model_gauge.cpp:65-152 | issues `LoadTrace` and makes `LoadReads` reads; returns `LoadStatus`, which is NONE or IO; leaves the register file as `LoadTrace` leaves it |
| Driver.ModelGauge.GetSoc | src/model_gauge.cpp:154-169 | one SOC read, decoded by `SocPercent`; the register file is unchanged |
| Driver.ModelGauge.GetVolt | src/model_gauge.cpp:171-179 | one VCELL read, decoded by `Volts`; the register file is unchanged |
| Driver.ModelGauge.CheckModel | src/model_gauge.cpp:188-196 | issues the check-stage log and reads RCOMP, OCV and SOC in that order |
| Driver.ModelGauge.Restore | src/model_gauge.cpp:200-209 | writes back the captured RCOMP and OCV, then the lock word |
| Driver.ModelGauge.ReloadModel | src/model_gauge.cpp:206-209 | a whole `load_config`, whose status is discarded, then the lock word |
| Driver.ModelGauge.VerifyModel | src/model_gauge.cpp:181-212 | issues `VerifyTrace` and makes `VerifyReads` reads; returns `VerifyStatus`, which is NONE or RELOAD; leaves the register file as `VerifyTrace` leaves it |

## Left out

- `fuelWireInstance` and the choice of I2C interface are platform plumbing.
  The `TwoWire` transport and the `WITH_LOCK` bus mutex are not modelled:
  each `read_word`, `write_word` and table transmission is one atomic
  transaction, and there is no concurrency.
- Transport return codes: the code ignores them, and the model does not
  invent error handling. A failed read is covered by the oracle, which may
  answer any bytes.
- The chip's own computation is not modelled. The oracle answers every read
  in order, whatever the register, so the replies to the OCV, RCOMP and SOC
  reads are unconstrained. Only the register file of written bytes is
  modelled, and its block write stores consecutive bytes from the start
  register.
- `delay()`: real time is not modelled. Each wait appears in the log only as
  `Delay(100)` or `Delay(150)`, at its place in the order.
- Logging (`LOGI`, `LOGE`).
- Telemetry.Volts: the C++ divides in double precision (`800.0`) and rounds
  the quotient to `float` on return. The model gives the exact real quotient,
  so it does not capture that rounding. `SocPercent` loses nothing: a 16-bit
  count divided by 256 or 512 is exact in `float`.
- The record fields `EmptyAdjustment`, `FullAdjustment`, `TempCoUp` and
  `TempCoDown` are not read by the driver and are left out of
  `ModelConfig`.
- The example programs (`example/main.cpp`, `example/test_2.cpp`) are host
  glue and are not part of this model.
