/**
 * The `ModelGauge` driver object: an immutable configuration and the chip it
 * talks to. Each method is proved to issue exactly the log of transactions
 * that the `Loader` and `Verifier` specifications describe, to return the
 * status they describe, and to leave the registers as that log leaves them.
 */
module Driver {
  import opened Bus
  import opened Config
  import opened Telemetry
  import opened Loader
  import opened Verifier

  class ModelGauge {
    const config: ModelConfig
    const device: Device

    constructor (device: Device, config: ModelConfig := Lg21700)
      ensures this.device == device && this.config == config
    {
      this.device := device;
      this.config := config;
    }

    /** One unlock attempt: write the unlock word to LOCK and read OCV back. */
    method TryUnlock() returns (ocv: Word)
      modifies device
      ensures ocv == device.answer(old(device.readCount))
      ensures device.trace == old(device.trace) + [UnlockWrite] + [Read(RegOcv, ocv)]
      ensures device.readCount == old(device.readCount) + 1
    {
      device.WriteWord(RegLock, 0x4A, 0x57);
      ocv := device.ReadWord(RegOcv);
    }

    /**
     * The retry loop of the unlock stage: up to `SetupRetries + 1` attempts,
     * with a 100 ms wait after each attempt that reads back 0xFFFF. `n` is the
     * number of failed attempts.
     */
    method UnlockLoop() returns (retries: int, originalOcv: Word, ghost n: nat)
      modifies device
      ensures -1 <= retries <= SetupRetries && n == SetupRetries - retries
      ensures forall j :: old(device.readCount) <= j < old(device.readCount) + n ==> Locked(device.answer(j))
      ensures retries >= 0 ==> originalOcv == device.answer(old(device.readCount) + n) && !Locked(originalOcv)
      ensures retries >= 0 ==> device.trace == old(device.trace) + FailedAttempts(device.answer, old(device.readCount), n)
                                                + [UnlockWrite] + [Read(RegOcv, originalOcv)]
      ensures retries < 0 ==> device.trace == old(device.trace) + FailedAttempts(device.answer, old(device.readCount), n)
      ensures device.readCount == old(device.readCount) + n + (if retries >= 0 then 1 else 0)
    {
      ghost var k := device.readCount;
      ghost var ans := device.answer;
      ghost var t0 := device.trace;
      originalOcv := Word(0, 0);
      retries := SetupRetries;
      n := 0;
      while 0 <= retries
        invariant -1 <= retries <= SetupRetries && n == SetupRetries - retries
        invariant forall j :: k <= j < k + n ==> Locked(ans(j))
        invariant device.readCount == k + n
        invariant device.trace == t0 + FailedAttempts(ans, k, n)
        decreases retries
      {
        // unlock model access and read OCV back
        originalOcv := TryUnlock();
        if originalOcv.msb == 0xFF && originalOcv.lsb == 0xFF {
          device.Delay(100);
          FailedStep(ans, k, n, t0);
          assert Locked(ans(k + n));
        } else {
          return;
        }
        retries, n := retries - 1, n + 1;
      }
    }

    /**
     * The unlock stage of `LoadConfig`: returns the final value of the retry
     * counter and the OCV bytes read on the last attempt.
     */
    method Unlock() returns (retries: int, originalOcv: Word)
      modifies device
      ensures device.trace == old(device.trace) + UnlockTrace(device.answer, old(device.readCount))
      ensures retries == SetupRetries - Failures(device.answer, old(device.readCount))
      ensures retries >= 0 ==> originalOcv == OriginalOcv(device.answer, old(device.readCount))
      ensures device.readCount == old(device.readCount) + UnlockReads(device.answer, old(device.readCount))
    {
      ghost var k := device.readCount;
      ghost var ans := device.answer;
      ghost var t0 := device.trace;
      ghost var n;
      retries, originalOcv, n := UnlockLoop();
      UnlockFinished(ans, k, n, retries, originalOcv, t0, device.trace, device.readCount);
    }

    /**
     * The table stage of `LoadConfig`: the 64 model bytes, in order, as four
     * transmissions of 16 bytes each, addressed 0x40, 0x50, 0x60 and 0x70.
     */
    method WriteTable()
      modifies device
      ensures device.trace == old(device.trace) + TableBlocks(config.modelData, 4)
      ensures device.readCount == old(device.readCount)
    {
      var i := 0;
      ghost var n := 0;
      while i < 64
        invariant 0 <= n <= 4 && i == 16 * n
        invariant device.readCount == old(device.readCount)
        invariant device.trace == old(device.trace) + TableBlocks(config.modelData, n)
      {
        var block: seq<Byte> := [];
        for j := 0 to 16
          invariant block == config.modelData[i..i + j]
        {
          block := block + [config.modelData[i + j]];
        }
        device.WriteBlock(TableBase + i, block);
        i, n := i + 16, n + 1;
      }
    }

    /**
     * The first half of the program stage: RCOMP to its maximum, the model
     * table, then the OCV test value between two 150 ms waits.
     */
    method ApplyTestOcv()
      modifies device
      ensures device.trace == old(device.trace) + [Write(RegRcomp, 0xFF, 0x00)] + TableBlocks(config.modelData, 4)
                                + [Op.Delay(150)] + [Write(RegOcv, OcvMsb(config.ocvTest), OcvLsb(config.ocvTest))]
                                + [Op.Delay(150)]
      ensures device.readCount == old(device.readCount)
    {
      // RCOMP to its maximum
      device.WriteWord(RegRcomp, 0xFF, 0x00);

      // the model table, four blocks of 16 bytes
      WriteTable();

      device.Delay(150);
      device.WriteWord(RegOcv, OcvMsb(config.ocvTest), OcvLsb(config.ocvTest));
      device.Delay(150);
    }

    /**
     * The program stage of `LoadConfig`, after a successful unlock: write the
     * table, apply the test OCV, read and check the SOC, restore RCOMP and OCV
     * and lock model access again.
     */
    method Program(originalOcv: Word) returns (status: Status)
      modifies device
      ensures device.trace == old(device.trace) + ProgramTrace(config, originalOcv, device.answer(old(device.readCount)))
      ensures device.readCount == old(device.readCount) + 1
      ensures status == if LoadBand(config, device.answer(old(device.readCount)).msb) then None else Io
    {
      ghost var t0 := device.trace;
      status := None;

      ApplyTestOcv();

      // check the SOC the chip computes from the test OCV
      var soc := device.ReadWord(RegSoc);
      if !(soc.msb >= config.socCheckA && soc.msb <= config.socCheckB) {
        status := Io;
      }

      // restore RCOMP and OCV, lock model access
      device.WriteWord(RegRcomp, config.rcomp0, 0x00);
      device.WriteWord(RegOcv, originalOcv.msb, originalOcv.lsb);
      device.WriteWord(RegLock, 0x00, 0x00);
      device.Delay(150);

      ProgramSteps(config, originalOcv, soc, t0);
    }

    /** Loads the model table into the chip and checks the resulting SOC. */
    method LoadConfig() returns (status: Status)
      modifies device
      ensures device.trace == old(device.trace) + LoadTrace(config, device.answer, old(device.readCount))
      ensures device.readCount == old(device.readCount) + LoadReads(device.answer, old(device.readCount))
      ensures status == LoadStatus(config, device.answer, old(device.readCount))
      ensures status == None || status == Io
      ensures device.Regs() == Apply(old(device.Regs()), LoadTrace(config, device.answer, old(device.readCount)))
    {
      ghost var k := device.readCount;
      ghost var ans := device.answer;
      ghost var t0 := device.trace;
      var retries, originalOcv := Unlock();
      if 0 >= retries {
        LoadGaveUp(config, ans, k, t0, device.trace);
        ApplyConcat(device.regs0, t0, LoadTrace(config, ans, k));
        return Io;
      }
      ghost var t1 := device.trace;
      LoadSocRead(ans, k, device.readCount);
      status := Program(originalOcv);
      LoadProceeded(config, ans, k, t0, t1, device.trace);
      ApplyConcat(device.regs0, t0, LoadTrace(config, ans, k));
    }

    /** Reads the SOC register pair and decodes it as a percentage. */
    method GetSoc() returns (soc: real)
      modifies device
      ensures var w := device.answer(old(device.readCount)); soc == SocPercent(config.bits, w.msb, w.lsb)
      ensures device.trace == old(device.trace) + [Read(RegSoc, device.answer(old(device.readCount)))]
      ensures device.readCount == old(device.readCount) + 1
      ensures device.Regs() == old(device.Regs())
    {
      ghost var t0 := device.trace;
      var w := device.ReadWord(RegSoc);
      soc := SocPercent(config.bits, w.msb, w.lsb);
      ApplySnoc(device.regs0, t0, Read(RegSoc, w));
    }

    /** Reads the VCELL register pair and decodes it as volts. */
    method GetVolt() returns (volts: real)
      modifies device
      ensures var w := device.answer(old(device.readCount)); volts == Volts(w.msb, w.lsb)
      ensures device.trace == old(device.trace) + [Read(RegVcell, device.answer(old(device.readCount)))]
      ensures device.readCount == old(device.readCount) + 1
      ensures device.Regs() == old(device.Regs())
    {
      ghost var t0 := device.trace;
      var w := device.ReadWord(RegVcell);
      volts := Volts(w.msb, w.lsb);
      ApplySnoc(device.regs0, t0, Read(RegVcell, w));
    }

    /**
     * The check stage of `VerifyModel`: unlock, capture RCOMP and OCV, apply
     * the test OCV, re-assert the captured RCOMP, wait and read the SOC.
     */
    method CheckModel() returns (originalRcomp: Word, originalOcv: Word, soc: Word)
      modifies device
      ensures device.trace == old(device.trace) + CheckTrace(config, device.answer, old(device.readCount))
      ensures device.readCount == old(device.readCount) + 3
      ensures originalRcomp == RcompReply(device.answer, old(device.readCount))
      ensures originalOcv == OcvReply(device.answer, old(device.readCount))
      ensures soc == CheckReply(device.answer, old(device.readCount))
    {
      ghost var t0 := device.trace;
      device.WriteWord(RegLock, 0x4A, 0x57);
      originalRcomp := device.ReadWord(RegRcomp);
      originalOcv := device.ReadWord(RegOcv);

      device.WriteWord(RegOcv, OcvMsb(config.ocvTest), OcvLsb(config.ocvTest));
      device.WriteWord(RegRcomp, originalRcomp.msb, originalRcomp.lsb);
      device.Delay(150);

      soc := device.ReadWord(RegSoc);
      CheckSteps(config, device.answer, old(device.readCount), t0);
    }

    /** The accepting end of `VerifyModel`: write back RCOMP and OCV, then lock model access. */
    method Restore(originalRcomp: Word, originalOcv: Word)
      modifies device
      ensures device.trace == old(device.trace) + [Write(RegRcomp, originalRcomp.msb, originalRcomp.lsb)]
                                + [Write(RegOcv, originalOcv.msb, originalOcv.lsb)] + [LockWrite]
      ensures device.readCount == old(device.readCount)
    {
      device.WriteWord(RegRcomp, originalRcomp.msb, originalRcomp.lsb);
      device.WriteWord(RegOcv, originalOcv.msb, originalOcv.lsb);
      device.WriteWord(RegLock, 0x00, 0x00);
    }

    /** The rejecting end of `VerifyModel`: reload the model, discarding the status, then lock model access. */
    method ReloadModel()
      modifies device
      ensures device.trace == old(device.trace) + LoadTrace(config, device.answer, old(device.readCount)) + [LockWrite]
      ensures device.readCount == old(device.readCount) + LoadReads(device.answer, old(device.readCount))
    {
      var _ := LoadConfig();
      device.WriteWord(RegLock, 0x00, 0x00);
    }

    /**
     * Re-applies the test OCV to the resident model and checks the SOC; on
     * failure reloads the whole model, whose own status is discarded.
     */
    method VerifyModel() returns (status: Status)
      modifies device
      ensures device.trace == old(device.trace) + VerifyTrace(config, device.answer, old(device.readCount))
      ensures device.readCount == old(device.readCount) + VerifyReads(config, device.answer, old(device.readCount))
      ensures status == VerifyStatus(config, device.answer, old(device.readCount))
      ensures status == None || status == Reload
      ensures device.Regs() == Apply(old(device.Regs()), VerifyTrace(config, device.answer, old(device.readCount)))
    {
      ghost var k := device.readCount;
      ghost var ans := device.answer;
      ghost var t0 := device.trace;
      status := None;

      var originalRcomp, originalOcv, soc := CheckModel();
      if soc.msb > config.socCheckA && soc.msb <= config.socCheckB {
        Restore(originalRcomp, originalOcv);
        VerifyAccepted(config, ans, k, t0, device.trace);
      } else {
        ReloadModel();
        status := Reload;
        VerifyRejected(config, ans, k, t0, device.trace);
      }
      ApplyConcat(device.regs0, t0, VerifyTrace(config, ans, k));
    }
  }
}
