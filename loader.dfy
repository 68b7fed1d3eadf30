/**
 * What `load_config` does, as a function of the configuration and of the
 * chip's answers: the log of transactions it issues and the status it
 * returns. `ans` answers the reads in order and `k` is the number of reads
 * issued before the call, so the call's first read is answered by `ans(k)`.
 */
module Loader {
  import opened Bus
  import opened Config

  /** The initial value of the unlock retry counter. */
  const SetupRetries := 100

  /** A read of OCV that shows model access still locked. */
  predicate Locked(w: Word)
  {
    w.msb == 0xFF && w.lsb == 0xFF
  }

  /** The length of the run of locked answers starting at `ans(k)`, cut off at `n`. */
  function LockedRun(ans: nat -> Word, k: nat, n: nat): (m: nat)
    ensures m <= n
    decreases n
  {
    if n == 0 || !Locked(ans(k)) then 0 else 1 + LockedRun(ans, k + 1, n - 1)
  }

  /** Every answer in the run is locked, and the one after it, if within the cut-off, is not. */
  lemma {:induction false} LockedRunSpec(ans: nat -> Word, k: nat, n: nat)
    ensures forall j :: k <= j < k + LockedRun(ans, k, n) ==> Locked(ans(j))
    ensures LockedRun(ans, k, n) < n ==> !Locked(ans(k + LockedRun(ans, k, n)))
    decreases n
  {
    if n > 0 && Locked(ans(k)) {
      LockedRunSpec(ans, k + 1, n - 1);
    }
  }

  /** A run of `n` locked answers followed by an unlocked one, within the cut-off, has length `n`. */
  lemma RunEndsAt(ans: nat -> Word, k: nat, n: nat, bound: nat)
    requires n < bound
    requires forall j :: k <= j < k + n ==> Locked(ans(j))
    requires !Locked(ans(k + n))
    ensures LockedRun(ans, k, bound) == n
  {
    LockedRunSpec(ans, k, bound);
  }

  /** A run of locked answers as long as the cut-off has the cut-off's length. */
  lemma RunReachesBound(ans: nat -> Word, k: nat, bound: nat)
    requires forall j :: k <= j < k + bound ==> Locked(ans(j))
    ensures LockedRun(ans, k, bound) == bound
  {
    LockedRunSpec(ans, k, bound);
  }

  /**
   * The number of failed unlock attempts. The loop runs while
   * `0 <= retries`, from `SetupRetries` down, so there is room for
   * `SetupRetries + 1` attempts.
   */
  function Failures(ans: nat -> Word, k: nat): nat
  {
    LockedRun(ans, k, SetupRetries + 1)
  }

  /**
   * Whether the call goes past the unlock stage. After the loop the counter
   * holds `SetupRetries - Failures`, whether the loop ended by a successful
   * attempt or by running out, and the call gives up when it is not positive.
   * So it is false when the 101st attempt is the first to succeed, although
   * model access is open then.
   */
  predicate Proceeds(ans: nat -> Word, k: nat)
  {
    SetupRetries - Failures(ans, k) > 0
  }

  /** The OCV bytes read on the last unlock attempt. */
  function OriginalOcv(ans: nat -> Word, k: nat): Word
  {
    ans(k + Failures(ans, k))
  }

  /** The answer to the SOC read that follows a successful unlock. */
  function SocReply(ans: nat -> Word, k: nat): Word
  {
    ans(k + Failures(ans, k) + 1)
  }

  /** `n` failed unlock attempts, each followed by a 100 ms wait. */
  function FailedAttempts(ans: nat -> Word, k: nat, n: nat): seq<Op>
    decreases n
  {
    if n == 0 then []
    else FailedAttempts(ans, k, n - 1) + [UnlockWrite, Read(RegOcv, ans(k + n - 1)), Op.Delay(100)]
  }

  /** The unlock stage: the failed attempts, then the successful one if there is one. */
  function UnlockTrace(ans: nat -> Word, k: nat): seq<Op>
  {
    var m := Failures(ans, k);
    FailedAttempts(ans, k, m) + (if m <= SetupRetries then [UnlockWrite, Read(RegOcv, ans(k + m))] else [])
  }

  /** One more failed attempt appended to the log `t0` one transaction at a time. */
  lemma FailedStep(ans: nat -> Word, k: nat, n: nat, t0: seq<Op>)
    ensures t0 + FailedAttempts(ans, k, n + 1) ==
      t0 + FailedAttempts(ans, k, n) + [UnlockWrite] + [Read(RegOcv, ans(k + n))] + [Op.Delay(100)]
  {
  }

  /** The unlock stage appended to the log `t0`, when attempt `n` is the first to succeed. */
  lemma UnlockStepsSuccess(ans: nat -> Word, k: nat, n: nat, t0: seq<Op>)
    requires n == Failures(ans, k) <= SetupRetries
    ensures t0 + UnlockTrace(ans, k) == t0 + FailedAttempts(ans, k, n) + [UnlockWrite] + [Read(RegOcv, ans(k + n))]
  {
  }

  /** The unlock stage appended to the log `t0`, when every attempt fails. */
  lemma UnlockStepsExhausted(ans: nat -> Word, k: nat, t0: seq<Op>)
    requires Failures(ans, k) == SetupRetries + 1
    ensures t0 + UnlockTrace(ans, k) == t0 + FailedAttempts(ans, k, SetupRetries + 1)
  {
  }

  /**
   * The retry loop's outcome, `n` failed attempts and a final counter value
   * `retries`, read as the unlock stage: the log `t0` extended to `t`, and the
   * read counter `k` advanced to `count`.
   */
  lemma UnlockFinished(ans: nat -> Word, k: nat, n: nat, retries: int, ocv: Word, t0: seq<Op>, t: seq<Op>, count: nat)
    requires -1 <= retries <= SetupRetries && n == SetupRetries - retries
    requires forall j :: k <= j < k + n ==> Locked(ans(j))
    requires retries >= 0 ==> ocv == ans(k + n) && !Locked(ocv)
    requires retries >= 0 ==> t == t0 + FailedAttempts(ans, k, n) + [UnlockWrite] + [Read(RegOcv, ocv)]
    requires retries < 0 ==> t == t0 + FailedAttempts(ans, k, n)
    requires count == k + n + (if retries >= 0 then 1 else 0)
    ensures t == t0 + UnlockTrace(ans, k)
    ensures retries == SetupRetries - Failures(ans, k)
    ensures retries >= 0 ==> ocv == OriginalOcv(ans, k)
    ensures count == k + UnlockReads(ans, k)
  {
    if retries >= 0 {
      UnlockSucceeded(ans, k, n, ocv, t0, t, count);
    } else {
      UnlockExhausted(ans, k, t0, t, count);
    }
  }

  /** `UnlockFinished` when attempt `n` succeeds. */
  lemma UnlockSucceeded(ans: nat -> Word, k: nat, n: nat, ocv: Word, t0: seq<Op>, t: seq<Op>, count: nat)
    requires n <= SetupRetries
    requires forall j :: k <= j < k + n ==> Locked(ans(j))
    requires ocv == ans(k + n) && !Locked(ocv)
    requires t == t0 + FailedAttempts(ans, k, n) + [UnlockWrite] + [Read(RegOcv, ocv)]
    requires count == k + n + 1
    ensures t == t0 + UnlockTrace(ans, k)
    ensures n == Failures(ans, k) && ocv == OriginalOcv(ans, k)
    ensures count == k + UnlockReads(ans, k)
  {
    RunEndsAt(ans, k, n, SetupRetries + 1);
    UnlockStepsSuccess(ans, k, n, t0);
  }

  /** `UnlockFinished` when every attempt fails. */
  lemma UnlockExhausted(ans: nat -> Word, k: nat, t0: seq<Op>, t: seq<Op>, count: nat)
    requires forall j :: k <= j < k + SetupRetries + 1 ==> Locked(ans(j))
    requires t == t0 + FailedAttempts(ans, k, SetupRetries + 1)
    requires count == k + SetupRetries + 1
    ensures t == t0 + UnlockTrace(ans, k)
    ensures Failures(ans, k) == SetupRetries + 1
    ensures count == k + UnlockReads(ans, k)
  {
    RunReachesBound(ans, k, SetupRetries + 1);
    UnlockStepsExhausted(ans, k, t0);
  }

  /** The high and low byte of the OCV test value, `(x >> 8) & 0xFF` and `x & 0xFF`. */
  function OcvMsb(x: U32): Byte { (x / 256) % 256 }
  function OcvLsb(x: U32): Byte { x % 256 }

  /** The model table as four 16-byte transmissions from 0x40: the first `n` of them. */
  function TableBlocks(data: Table, n: nat): seq<Op>
    requires n <= 4
  {
    if n == 0 then []
    else TableBlocks(data, n - 1) + [Block(TableBase + 16 * (n - 1), data[16 * (n - 1)..16 * n])]
  }

  /** Everything after a successful unlock, given the OCV bytes read then and the SOC answer. */
  function ProgramTrace(cfg: ModelConfig, ocv: Word, soc: Word): seq<Op>
  {
    [Write(RegRcomp, 0xFF, 0x00)]
    + TableBlocks(cfg.modelData, 4)
    + [Op.Delay(150)]
    + [Write(RegOcv, OcvMsb(cfg.ocvTest), OcvLsb(cfg.ocvTest))]
    + [Op.Delay(150)]
    + [Read(RegSoc, soc)]
    + [Write(RegRcomp, cfg.rcomp0, 0x00)]
    + [Write(RegOcv, ocv.msb, ocv.lsb)]
    + [LockWrite]
    + [Op.Delay(150)]
  }

  /** The SOC band `load_config` accepts: inclusive at both ends. */
  predicate LoadBand(cfg: ModelConfig, socMsb: Byte)
  {
    cfg.socCheckA <= socMsb <= cfg.socCheckB
  }

  /** The log of one `load_config` call. */
  function LoadTrace(cfg: ModelConfig, ans: nat -> Word, k: nat): seq<Op>
  {
    UnlockTrace(ans, k)
    + if Proceeds(ans, k) then ProgramTrace(cfg, OriginalOcv(ans, k), SocReply(ans, k)) else []
  }

  /** The number of reads of the unlock stage: one per attempt. */
  function UnlockReads(ans: nat -> Word, k: nat): nat
  {
    var m := Failures(ans, k);
    if m <= SetupRetries then m + 1 else m
  }

  /** The number of reads one `load_config` call issues. */
  function LoadReads(ans: nat -> Word, k: nat): nat
  {
    UnlockReads(ans, k) + (if Proceeds(ans, k) then 1 else 0)
  }

  /** The status one `load_config` call returns. */
  function LoadStatus(cfg: ModelConfig, ans: nat -> Word, k: nat): Status
  {
    if !Proceeds(ans, k) then Io
    else if LoadBand(cfg, SocReply(ans, k).msb) then None
    else Io
  }

  /** The program stage appended to the log `t0` one transaction at a time. */
  lemma ProgramSteps(cfg: ModelConfig, ocv: Word, soc: Word, t0: seq<Op>)
    ensures t0 + ProgramTrace(cfg, ocv, soc) ==
      t0 + [Write(RegRcomp, 0xFF, 0x00)] + TableBlocks(cfg.modelData, 4)
      + [Op.Delay(150)] + [Write(RegOcv, OcvMsb(cfg.ocvTest), OcvLsb(cfg.ocvTest))] + [Op.Delay(150)]
      + [Read(RegSoc, soc)] + [Write(RegRcomp, cfg.rcomp0, 0x00)]
      + [Write(RegOcv, ocv.msb, ocv.lsb)] + [LockWrite] + [Op.Delay(150)]
  {
  }

  /** A call that gives up after the unlock stage: its log appended to the log `t0`, its reads and its status. */
  lemma LoadGaveUp(cfg: ModelConfig, ans: nat -> Word, k: nat, t0: seq<Op>, t: seq<Op>)
    requires SetupRetries - Failures(ans, k) <= 0
    requires t == t0 + UnlockTrace(ans, k)
    ensures t == t0 + LoadTrace(cfg, ans, k)
    ensures LoadReads(ans, k) == UnlockReads(ans, k) && LoadStatus(cfg, ans, k) == Io
  {
    assert LoadTrace(cfg, ans, k) == UnlockTrace(ans, k) + [];
  }

  /** After a successful unlock stage of `UnlockReads` reads, the next read is the SOC check. */
  lemma LoadSocRead(ans: nat -> Word, k: nat, n: nat)
    requires SetupRetries - Failures(ans, k) > 0
    requires n == k + UnlockReads(ans, k)
    ensures ans(n) == SocReply(ans, k) && n + 1 == k + LoadReads(ans, k)
  {
  }

  /**
   * A call that gets past the unlock stage, whose unlock stage took the log
   * from `t0` to `t1`: its whole log, and its status given the SOC answer.
   */
  lemma LoadProceeded(cfg: ModelConfig, ans: nat -> Word, k: nat, t0: seq<Op>, t1: seq<Op>, t: seq<Op>)
    requires SetupRetries - Failures(ans, k) > 0
    requires t1 == t0 + UnlockTrace(ans, k)
    requires t == t1 + ProgramTrace(cfg, OriginalOcv(ans, k), SocReply(ans, k))
    ensures t == t0 + LoadTrace(cfg, ans, k)
    ensures LoadStatus(cfg, ans, k) == if LoadBand(cfg, SocReply(ans, k).msb) then None else Io
  {
  }
}
