/**
 * What `verify_model` does, as a function of the configuration and of the
 * chip's answers, in the same terms as `Loader`: the log of transactions,
 * the number of reads and the status.
 */
module Verifier {
  import opened Bus
  import opened Config
  import opened Loader

  /** The SOC band `verify_model` accepts: strict at the lower end. */
  predicate VerifyBand(cfg: ModelConfig, socMsb: Byte)
  {
    cfg.socCheckA < socMsb <= cfg.socCheckB
  }

  /** The RCOMP, OCV and SOC bytes read by the call, in that order. */
  function RcompReply(ans: nat -> Word, k: nat): Word { ans(k) }
  function OcvReply(ans: nat -> Word, k: nat): Word { ans(k + 1) }
  function CheckReply(ans: nat -> Word, k: nat): Word { ans(k + 2) }

  /** The transactions before the SOC check: unlock, capture, test OCV, re-assert RCOMP, wait, read SOC. */
  function CheckTrace(cfg: ModelConfig, ans: nat -> Word, k: nat): seq<Op>
  {
    var r := RcompReply(ans, k);
    [UnlockWrite] + [Read(RegRcomp, r)] + [Read(RegOcv, OcvReply(ans, k))]
    + [Write(RegOcv, OcvMsb(cfg.ocvTest), OcvLsb(cfg.ocvTest))] + [Write(RegRcomp, r.msb, r.lsb)]
    + [Op.Delay(150)] + [Read(RegSoc, CheckReply(ans, k))]
  }

  /** The log of one `verify_model` call. */
  function VerifyTrace(cfg: ModelConfig, ans: nat -> Word, k: nat): seq<Op>
  {
    var r, o := RcompReply(ans, k), OcvReply(ans, k);
    CheckTrace(cfg, ans, k)
    + (if VerifyBand(cfg, CheckReply(ans, k).msb)
       then [Write(RegRcomp, r.msb, r.lsb)] + [Write(RegOcv, o.msb, o.lsb)]
       else LoadTrace(cfg, ans, k + 3))
    + [LockWrite]
  }

  /** The number of reads one `verify_model` call issues. */
  function VerifyReads(cfg: ModelConfig, ans: nat -> Word, k: nat): nat
  {
    3 + if VerifyBand(cfg, CheckReply(ans, k).msb) then 0 else LoadReads(ans, k + 3)
  }

  /** The status one `verify_model` call returns. */
  function VerifyStatus(cfg: ModelConfig, ans: nat -> Word, k: nat): Status
  {
    if VerifyBand(cfg, CheckReply(ans, k).msb) then None else Reload
  }

  /** The check stage appended to the log `t0` one transaction at a time. */
  lemma CheckSteps(cfg: ModelConfig, ans: nat -> Word, k: nat, t0: seq<Op>)
    ensures var r := RcompReply(ans, k);
      t0 + CheckTrace(cfg, ans, k) ==
      t0 + [UnlockWrite] + [Read(RegRcomp, r)] + [Read(RegOcv, OcvReply(ans, k))]
      + [Write(RegOcv, OcvMsb(cfg.ocvTest), OcvLsb(cfg.ocvTest))] + [Write(RegRcomp, r.msb, r.lsb)]
      + [Op.Delay(150)] + [Read(RegSoc, CheckReply(ans, k))]
  {
  }

  /** An accepting call: its log appended to the log `t0`, its reads and its status. */
  lemma VerifyAccepted(cfg: ModelConfig, ans: nat -> Word, k: nat, t0: seq<Op>, t: seq<Op>)
    requires VerifyBand(cfg, CheckReply(ans, k).msb)
    requires var r, o := RcompReply(ans, k), OcvReply(ans, k);
      t == t0 + CheckTrace(cfg, ans, k) + [Write(RegRcomp, r.msb, r.lsb)] + [Write(RegOcv, o.msb, o.lsb)] + [LockWrite]
    ensures t == t0 + VerifyTrace(cfg, ans, k)
    ensures VerifyReads(cfg, ans, k) == 3 && VerifyStatus(cfg, ans, k) == None
  {
  }

  /** A rejecting call: its log appended to the log `t0`, its reads and its status. */
  lemma VerifyRejected(cfg: ModelConfig, ans: nat -> Word, k: nat, t0: seq<Op>, t: seq<Op>)
    requires !VerifyBand(cfg, CheckReply(ans, k).msb)
    requires t == t0 + CheckTrace(cfg, ans, k) + LoadTrace(cfg, ans, k + 3) + [LockWrite]
    ensures t == t0 + VerifyTrace(cfg, ans, k)
    ensures VerifyReads(cfg, ans, k) == 3 + LoadReads(ans, k + 3) && VerifyStatus(cfg, ans, k) == Reload
  {
  }
}
