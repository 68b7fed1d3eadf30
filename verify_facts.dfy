/**
 * Properties of `verify_model`, stated about the `Verifier` specification
 * that `ModelGauge.VerifyModel` is proved to follow: its status, the SOC
 * bands of the two calls, the lock writes, and what an accepting and a
 * rejecting call leave in the registers.
 */
module VerifyFacts {
  import opened Bus
  import opened Config
  import opened Loader
  import opened Verifier
  import opened Registers
  import opened LoadFacts

  /**
   * `verify_model` returns only NONE or RELOAD, NONE exactly when the high
   * SOC byte lies in the band that is strict at its lower end.
   */
  lemma VerifyStatusSpec(cfg: ModelConfig, ans: nat -> Word, k: nat)
    ensures VerifyStatus(cfg, ans, k) == None || VerifyStatus(cfg, ans, k) == Reload
    ensures VerifyStatus(cfg, ans, k) == None <==> cfg.socCheckA < CheckReply(ans, k).msb <= cfg.socCheckB
  {
  }

  /**
   * The status is decided by the SOC read alone: whatever the nested reload
   * reads and returns, a rejecting call reports RELOAD.
   */
  lemma VerifyStatusIgnoresReload(cfg: ModelConfig, ans1: nat -> Word, ans2: nat -> Word, k: nat)
    requires ans1(k + 2) == ans2(k + 2)
    ensures VerifyStatus(cfg, ans1, k) == VerifyStatus(cfg, ans2, k)
    ensures VerifyStatus(cfg, ans1, k) == Reload ==> LoadStatus(cfg, ans1, k + 3) != Reload
  {
    LoadStatusSpec(cfg, ans1, k + 3);
  }

  /**
   * The two bands differ at the lower end only: a high SOC byte equal to
   * `SOCCheckA` passes `load_config` but fails `verify_model`, so with
   * `SOCCheckA == SOCCheckB` every verification reloads.
   */
  lemma BandBoundaries(cfg: ModelConfig)
    ensures LoadBand(cfg, cfg.socCheckA) <==> cfg.socCheckA <= cfg.socCheckB
    ensures !VerifyBand(cfg, cfg.socCheckA)
    ensures forall x: Byte :: VerifyBand(cfg, x) <==> LoadBand(cfg, x) && x != cfg.socCheckA
    ensures cfg.socCheckA == cfg.socCheckB ==> forall x: Byte :: !VerifyBand(cfg, x)
  {
  }

  /** The last transaction is always the lock write, so model access is left locked. */
  lemma VerifyEndsLocked(cfg: ModelConfig, ans: nat -> Word, k: nat, regs: map<int, Byte>)
    ensures var t := VerifyTrace(cfg, ans, k); |t| > 0 && t[|t| - 1] == LockWrite
    ensures var r := Apply(regs, VerifyTrace(cfg, ans, k));
      RegLock in r && r[RegLock] == 0 && RegLock + 1 in r && r[RegLock + 1] == 0
  {
    var t := VerifyTrace(cfg, ans, k);
    var p := t[..|t| - 1];
    assert t == p + [LockWrite];
    ApplyWrite(regs, p, RegLock, 0, 0);
  }

  /** The check stage in full, as a sequence of its seven transactions. */
  lemma CheckTraceDisplay(cfg: ModelConfig, ans: nat -> Word, k: nat)
    ensures var r := RcompReply(ans, k);
      CheckTrace(cfg, ans, k) ==
      [UnlockWrite, Read(RegRcomp, r), Read(RegOcv, OcvReply(ans, k)),
       Write(RegOcv, OcvMsb(cfg.ocvTest), OcvLsb(cfg.ocvTest)), Write(RegRcomp, r.msb, r.lsb),
       Op.Delay(150), Read(RegSoc, CheckReply(ans, k))]
  {
  }

  /**
   * What the check stage leaves in the registers: model access open, OCV
   * holding the test value, RCOMP holding the bytes just read from it, and
   * every other byte as it was.
   */
  lemma CheckEffect(cfg: ModelConfig, ans: nat -> Word, k: nat, regs: map<int, Byte>)
    ensures var a, rc := Apply(regs, CheckTrace(cfg, ans, k)), RcompReply(ans, k);
      RegRcomp in a && a[RegRcomp] == rc.msb && RegRcomp + 1 in a && a[RegRcomp + 1] == rc.lsb
      && RegOcv in a && a[RegOcv] == OcvMsb(cfg.ocvTest) && RegOcv + 1 in a && a[RegOcv + 1] == OcvLsb(cfg.ocvTest)
      && RegLock in a && a[RegLock] == 0x4A && RegLock + 1 in a && a[RegLock + 1] == 0x57
    ensures forall x :: x in regs && !ControlRegister(x) ==>
      x in Apply(regs, CheckTrace(cfg, ans, k)) && Apply(regs, CheckTrace(cfg, ans, k))[x] == regs[x]
  {
    var rc, o, s := RcompReply(ans, k), OcvReply(ans, k), CheckReply(ans, k);
    var wt := Write(RegOcv, OcvMsb(cfg.ocvTest), OcvLsb(cfg.ocvTest));
    var wr := Write(RegRcomp, rc.msb, rc.lsb);
    var p := [UnlockWrite] + [Read(RegRcomp, rc)] + [Read(RegOcv, o)];
    var t := CheckTrace(cfg, ans, k);
    assert t == p + [wt] + [wr] + [Op.Delay(150)] + [Read(RegSoc, s)];
    ApplySnoc(regs, p + [wt] + [wr] + [Op.Delay(150)], Read(RegSoc, s));
    ApplySnoc(regs, p + [wt] + [wr], Op.Delay(150));
    ApplySnoc(regs, p + [wt], wr);
    ApplySnoc(regs, p, wt);
    ApplySnoc(regs, [UnlockWrite] + [Read(RegRcomp, rc)], Read(RegOcv, o));
    ApplySnoc(regs, [UnlockWrite], Read(RegRcomp, rc));
    ApplyWrite(regs, [], RegLock, 0x4A, 0x57);
    assert [] + [UnlockWrite] == [UnlockWrite];
    CheckTraceDisplay(cfg, ans, k);
    forall x | x in regs && !ControlRegister(x)
      ensures x in Apply(regs, t) && Apply(regs, t)[x] == regs[x]
    {
      ApplyUntouched(regs, t, x);
    }
  }

  /** The check stage makes one unlock attempt and no lock write. */
  lemma CheckCounts(cfg: ModelConfig, ans: nat -> Word, k: nat)
    ensures Count(CheckTrace(cfg, ans, k), UnlockWrite) == 1
    ensures Count(CheckTrace(cfg, ans, k), LockWrite) == 0
  {
    var t := CheckTrace(cfg, ans, k);
    CheckTraceDisplay(cfg, ans, k);
    var rest := t[1..];
    assert t == [UnlockWrite] + rest;
    assert UnlockWrite !in rest;
    CountAbsent(rest, UnlockWrite);
    CountAbsent(t, LockWrite);
    CountConcat([UnlockWrite], rest, UnlockWrite);
    CountSnoc([], UnlockWrite, UnlockWrite);
    assert [] + [UnlockWrite] == [UnlockWrite];
  }

  /**
   * A call makes one unlock attempt of its own, plus those of the reload
   * when it rejects, and issues its own lock write, plus the reload's when
   * the reload gets past its unlock stage.
   */
  lemma VerifyCounts(cfg: ModelConfig, ans: nat -> Word, k: nat)
    ensures Count(VerifyTrace(cfg, ans, k), UnlockWrite) ==
      1 + if VerifyBand(cfg, CheckReply(ans, k).msb) then 0 else UnlockReads(ans, k + 3)
    ensures Count(VerifyTrace(cfg, ans, k), LockWrite) ==
      if VerifyBand(cfg, CheckReply(ans, k).msb) || !Proceeds(ans, k + 3) then 1 else 2
  {
    var ct := CheckTrace(cfg, ans, k);
    CheckCounts(cfg, ans, k);
    if VerifyBand(cfg, CheckReply(ans, k).msb) {
      var rc, o := RcompReply(ans, k), OcvReply(ans, k);
      var wr, wo := Write(RegRcomp, rc.msb, rc.lsb), Write(RegOcv, o.msb, o.lsb);
      assert VerifyTrace(cfg, ans, k) == ct + [wr] + [wo] + [LockWrite];
      CountSnoc(ct, wr, UnlockWrite);
      CountSnoc(ct + [wr], wo, UnlockWrite);
      CountSnoc(ct + [wr] + [wo], LockWrite, UnlockWrite);
      CountSnoc(ct, wr, LockWrite);
      CountSnoc(ct + [wr], wo, LockWrite);
      CountSnoc(ct + [wr] + [wo], LockWrite, LockWrite);
    } else {
      var lt := LoadTrace(cfg, ans, k + 3);
      assert VerifyTrace(cfg, ans, k) == ct + lt + [LockWrite];
      LoadCounts(cfg, ans, k + 3);
      CountConcat(ct, lt, UnlockWrite);
      CountConcat(ct, lt, LockWrite);
      CountSnoc(ct + lt, LockWrite, UnlockWrite);
      CountSnoc(ct + lt, LockWrite, LockWrite);
    }
  }

  /**
   * An accepting call writes back the RCOMP and OCV bytes it read and locks
   * model access; every byte outside RCOMP, OCV and LOCK keeps its value. So
   * when those reads answered with the register file's own bytes, the call
   * leaves every register but LOCK as it found it.
   */
  lemma VerifyAcceptEffect(cfg: ModelConfig, ans: nat -> Word, k: nat, regs: map<int, Byte>)
    requires VerifyBand(cfg, CheckReply(ans, k).msb)
    ensures var a, rc, o := Apply(regs, VerifyTrace(cfg, ans, k)), RcompReply(ans, k), OcvReply(ans, k);
      RegRcomp in a && a[RegRcomp] == rc.msb && RegRcomp + 1 in a && a[RegRcomp + 1] == rc.lsb
      && RegOcv in a && a[RegOcv] == o.msb && RegOcv + 1 in a && a[RegOcv + 1] == o.lsb
      && RegLock in a && a[RegLock] == 0 && RegLock + 1 in a && a[RegLock + 1] == 0
    ensures forall x :: x in regs && !ControlRegister(x) ==>
      x in Apply(regs, VerifyTrace(cfg, ans, k)) && Apply(regs, VerifyTrace(cfg, ans, k))[x] == regs[x]
    ensures RegRcomp in regs && RegRcomp + 1 in regs && RegOcv in regs && RegOcv + 1 in regs
      && RcompReply(ans, k) == Word(regs[RegRcomp], regs[RegRcomp + 1])
      && OcvReply(ans, k) == Word(regs[RegOcv], regs[RegOcv + 1])
      ==> forall x :: x in regs && x != RegLock && x != RegLock + 1 ==>
        x in Apply(regs, VerifyTrace(cfg, ans, k)) && Apply(regs, VerifyTrace(cfg, ans, k))[x] == regs[x]
  {
    var ct := CheckTrace(cfg, ans, k);
    var rc, o := RcompReply(ans, k), OcvReply(ans, k);
    var wr, wo := Write(RegRcomp, rc.msb, rc.lsb), Write(RegOcv, o.msb, o.lsb);
    var t := VerifyTrace(cfg, ans, k);
    assert t == ct + [wr] + [wo] + [LockWrite];
    CheckEffect(cfg, ans, k, regs);
    ApplySnoc(regs, ct, wr);
    ApplySnoc(regs, ct + [wr], wo);
    ApplySnoc(regs, ct + [wr] + [wo], LockWrite);
  }

  /** A rejecting call's registers: those the reload leaves after the check stage, then the lock write. */
  lemma RejectApply(cfg: ModelConfig, ans: nat -> Word, k: nat, regs: map<int, Byte>)
    requires !VerifyBand(cfg, CheckReply(ans, k).msb)
    ensures Apply(regs, VerifyTrace(cfg, ans, k))
      == ApplyOp(Apply(Apply(regs, CheckTrace(cfg, ans, k)), LoadTrace(cfg, ans, k + 3)), LockWrite)
  {
    var ct, lt := CheckTrace(cfg, ans, k), LoadTrace(cfg, ans, k + 3);
    assert VerifyTrace(cfg, ans, k) == ct + lt + [LockWrite];
    ApplySnoc(regs, ct + lt, LockWrite);
    ApplyConcat(regs, ct, lt);
  }

  /**
   * A rejecting call whose reload gets past its unlock stage leaves RCOMP
   * holding `RCOMP0`, OCV the bytes the reload read on its successful
   * attempt, the table the model bytes, and model access locked; every
   * other byte keeps its value.
   */
  lemma VerifyReloadEffect(cfg: ModelConfig, ans: nat -> Word, k: nat, regs: map<int, Byte>)
    requires !VerifyBand(cfg, CheckReply(ans, k).msb) && Proceeds(ans, k + 3)
    ensures Loaded(cfg, OriginalOcv(ans, k + 3), Apply(regs, VerifyTrace(cfg, ans, k)))
    ensures forall x :: x in regs && !ControlRegister(x) && !TableRegister(x) ==>
      x in Apply(regs, VerifyTrace(cfg, ans, k)) && Apply(regs, VerifyTrace(cfg, ans, k))[x] == regs[x]
  {
    var c := Apply(regs, CheckTrace(cfg, ans, k));
    var l := Apply(c, LoadTrace(cfg, ans, k + 3));
    RejectApply(cfg, ans, k, regs);
    LoadEffect(cfg, ans, k + 3, c);
    LoadedRelock(cfg, OriginalOcv(ans, k + 3), l);
    CheckEffect(cfg, ans, k, regs);
    LoadKeeps(cfg, ans, k + 3, c);
    forall x | x in regs && !ControlRegister(x) && !TableRegister(x)
      ensures x in Apply(regs, VerifyTrace(cfg, ans, k)) && Apply(regs, VerifyTrace(cfg, ans, k))[x] == regs[x]
    {
      assert x in c && c[x] == regs[x];
      assert x in l && l[x] == c[x];
    }
  }

  /**
   * A rejecting call whose reload gives up leaves OCV holding the test value
   * and RCOMP the bytes read from it, model access locked, and every byte
   * outside RCOMP, OCV and LOCK as it was: the model is not reloaded.
   */
  lemma VerifyGiveUpEffect(cfg: ModelConfig, ans: nat -> Word, k: nat, regs: map<int, Byte>)
    requires !VerifyBand(cfg, CheckReply(ans, k).msb) && !Proceeds(ans, k + 3)
    ensures var a, rc := Apply(regs, VerifyTrace(cfg, ans, k)), RcompReply(ans, k);
      RegRcomp in a && a[RegRcomp] == rc.msb && RegRcomp + 1 in a && a[RegRcomp + 1] == rc.lsb
      && RegOcv in a && a[RegOcv] == OcvMsb(cfg.ocvTest) && RegOcv + 1 in a && a[RegOcv + 1] == OcvLsb(cfg.ocvTest)
      && RegLock in a && a[RegLock] == 0 && RegLock + 1 in a && a[RegLock + 1] == 0
      && forall x :: x in regs && !ControlRegister(x) ==> x in a && a[x] == regs[x]
  {
    var c := Apply(regs, CheckTrace(cfg, ans, k));
    RejectApply(cfg, ans, k, regs);
    CheckEffect(cfg, ans, k, regs);
    GiveUpEffect(cfg, ans, k + 3, c);
  }
}
