/**
 * Properties of `load_config`, stated about the `Loader` specification that
 * `ModelGauge.LoadConfig` is proved to follow: the shape and bound of the
 * unlock stage, when the call gives up, the table transmissions, the order of
 * the writes, the status, and what the call leaves in the registers.
 */
module LoadFacts {
  import opened Bus
  import opened Config
  import opened Loader
  import opened Registers

  // ---------------------------------------------------------------- unlock

  /** The `i`-th transaction of the unlock stage: attempt `i / 3` is an unlock write, an OCV read and a wait. */
  function AttemptOp(ans: nat -> Word, k: nat, i: nat): Op
  {
    if i % 3 == 0 then UnlockWrite
    else if i % 3 == 1 then Read(RegOcv, ans(k + i / 3))
    else Op.Delay(100)
  }

  lemma {:induction false} FailedAttemptsShape(ans: nat -> Word, k: nat, n: nat)
    ensures |FailedAttempts(ans, k, n)| == 3 * n
    ensures forall i :: 0 <= i < 3 * n ==> FailedAttempts(ans, k, n)[i] == AttemptOp(ans, k, i)
    decreases n
  {
    if n > 0 {
      FailedAttemptsShape(ans, k, n - 1);
      var t := FailedAttempts(ans, k, n);
      assert t == FailedAttempts(ans, k, n - 1) + [UnlockWrite, Read(RegOcv, ans(k + n - 1)), Op.Delay(100)];
      forall i | 3 * (n - 1) <= i < 3 * n
        ensures t[i] == AttemptOp(ans, k, i)
      {
        assert i / 3 == n - 1 && i % 3 == i - 3 * (n - 1);
      }
    }
  }

  /**
   * The unlock stage is a sequence of attempts, each an unlock write to LOCK
   * followed by a read of OCV; the reads are answered in order, and all but
   * a successful last attempt are followed by a 100 ms wait.
   */
  lemma UnlockTraceShape(ans: nat -> Word, k: nat)
    ensures var m := Failures(ans, k);
      |UnlockTrace(ans, k)| == 3 * m + (if m <= SetupRetries then 2 else 0)
    ensures forall i :: 0 <= i < |UnlockTrace(ans, k)| ==> UnlockTrace(ans, k)[i] == AttemptOp(ans, k, i)
  {
    var m := Failures(ans, k);
    FailedAttemptsShape(ans, k, m);
    if m <= SetupRetries {
      var t := UnlockTrace(ans, k);
      forall i | 3 * m <= i < 3 * m + 2
        ensures t[i] == AttemptOp(ans, k, i)
      {
        assert i / 3 == m && i % 3 == i - 3 * m;
      }
    }
  }

  /** The unlock stage makes at most `SetupRetries + 1` attempts, one read each. */
  lemma {:induction false} FailedAttemptsCount(ans: nat -> Word, k: nat, n: nat)
    ensures Count(FailedAttempts(ans, k, n), UnlockWrite) == n
    decreases n
  {
    if n > 0 {
      FailedAttemptsCount(ans, k, n - 1);
      var p := FailedAttempts(ans, k, n - 1);
      var r := Read(RegOcv, ans(k + n - 1));
      assert FailedAttempts(ans, k, n) == p + [UnlockWrite] + [r] + [Op.Delay(100)];
      CountSnoc(p + [UnlockWrite] + [r], Op.Delay(100), UnlockWrite);
      CountSnoc(p + [UnlockWrite], r, UnlockWrite);
      CountSnoc(p, UnlockWrite, UnlockWrite);
    }
  }

  lemma UnlockAttempts(ans: nat -> Word, k: nat)
    ensures Count(UnlockTrace(ans, k), UnlockWrite) == UnlockReads(ans, k) <= SetupRetries + 1
  {
    var m := Failures(ans, k);
    FailedAttemptsCount(ans, k, m);
    if m <= SetupRetries {
      var p := FailedAttempts(ans, k, m);
      assert UnlockTrace(ans, k) == p + [UnlockWrite] + [Read(RegOcv, ans(k + m))];
      CountSnoc(p + [UnlockWrite], Read(RegOcv, ans(k + m)), UnlockWrite);
      CountSnoc(p, UnlockWrite, UnlockWrite);
    } else {
      assert UnlockTrace(ans, k) == FailedAttempts(ans, k, m);
    }
  }

  /** `load_config` gives up after the unlock stage exactly when the first `SetupRetries` OCV reads all show 0xFFFF. */
  lemma GivesUpIff(ans: nat -> Word, k: nat)
    ensures !Proceeds(ans, k) <==> forall j :: k <= j < k + SetupRetries ==> Locked(ans(j))
  {
    var m := Failures(ans, k);
    LockedRunSpec(ans, k, SetupRetries + 1);
    if m < SetupRetries {
      assert !Locked(ans(k + m));
    }
  }

  /**
   * A success on the last attempt, the `SetupRetries + 1`-th, still makes the
   * call give up: the counter is then 0 and the test `0 >= retries` fires.
   */
  lemma LastAttemptGivesUp(cfg: ModelConfig, ans: nat -> Word, k: nat)
    requires forall j :: k <= j < k + SetupRetries ==> Locked(ans(j))
    requires !Locked(ans(k + SetupRetries))
    ensures Failures(ans, k) == SetupRetries && !Proceeds(ans, k)
    ensures LoadStatus(cfg, ans, k) == Io
    ensures LoadTrace(cfg, ans, k) == FailedAttempts(ans, k, SetupRetries) + [UnlockWrite, Read(RegOcv, ans(k + SetupRetries))]
  {
    RunEndsAt(ans, k, SetupRetries, SetupRetries + 1);
  }

  /** Every transaction of the unlock stage is an unlock write, a read of OCV or a 100 ms wait. */
  predicate UnlockOp(op: Op)
  {
    op == UnlockWrite || (op.Read? && op.addr == RegOcv) || op == Op.Delay(100)
  }

  /**
   * When the call gives up, its log is the unlock stage alone: no write to
   * RCOMP or OCV, no table transmission and no lock write. Model access is
   * left open, and every other register keeps its value.
   */
  lemma GiveUpEffect(cfg: ModelConfig, ans: nat -> Word, k: nat, regs: map<int, Byte>)
    requires !Proceeds(ans, k)
    ensures LoadTrace(cfg, ans, k) == UnlockTrace(ans, k)
    ensures forall i :: 0 <= i < |LoadTrace(cfg, ans, k)| ==> UnlockOp(LoadTrace(cfg, ans, k)[i])
    ensures LockWrite !in LoadTrace(cfg, ans, k)
    ensures var r := Apply(regs, LoadTrace(cfg, ans, k));
      RegLock in r && r[RegLock] == 0x4A && RegLock + 1 in r && r[RegLock + 1] == 0x57
    ensures forall x :: x in regs && x != RegLock && x != RegLock + 1 ==>
      x in Apply(regs, LoadTrace(cfg, ans, k)) && Apply(regs, LoadTrace(cfg, ans, k))[x] == regs[x]
  {
    assert LoadTrace(cfg, ans, k) == UnlockTrace(ans, k) + [];
    UnlockOps(ans, k);
    UnlockOpen(ans, k, regs);
    UnlockKeeps(ans, k, regs);
  }

  /** Every transaction of the unlock stage is an unlock write, an OCV read or a 100 ms wait. */
  lemma UnlockOps(ans: nat -> Word, k: nat)
    ensures forall i :: 0 <= i < |UnlockTrace(ans, k)| ==> UnlockOp(UnlockTrace(ans, k)[i])
    ensures LockWrite !in UnlockTrace(ans, k)
  {
    UnlockTraceShape(ans, k);
  }

  /** The unlock stage changes no byte outside the lock register. */
  lemma UnlockKeeps(ans: nat -> Word, k: nat, regs: map<int, Byte>)
    ensures forall x :: x in regs && x != RegLock && x != RegLock + 1 ==>
      x in Apply(regs, UnlockTrace(ans, k)) && Apply(regs, UnlockTrace(ans, k))[x] == regs[x]
  {
    var t := UnlockTrace(ans, k);
    UnlockOps(ans, k);
    forall x | x in regs && x != RegLock && x != RegLock + 1
      ensures x in Apply(regs, t) && Apply(regs, t)[x] == regs[x]
    {
      assert forall i :: 0 <= i < |t| ==> UnlockOp(t[i]) && !Touches(t[i], x);
      ApplyUntouched(regs, t, x);
    }
  }

  /** After the unlock stage, whatever its outcome, the lock register holds the unlock word. */
  lemma UnlockOpen(ans: nat -> Word, k: nat, regs: map<int, Byte>)
    ensures var r := Apply(regs, UnlockTrace(ans, k));
      RegLock in r && r[RegLock] == 0x4A && RegLock + 1 in r && r[RegLock + 1] == 0x57
  {
    var m := Failures(ans, k);
    var t := UnlockTrace(ans, k);
    if m <= SetupRetries {
      var p := FailedAttempts(ans, k, m);
      assert t == p + [UnlockWrite] + [Read(RegOcv, ans(k + m))];
      AttemptLeavesOpen(regs, t, p, Read(RegOcv, ans(k + m)));
    } else {
      var p := FailedAttempts(ans, k, SetupRetries);
      var r := Read(RegOcv, ans(k + SetupRetries));
      assert t == p + [UnlockWrite] + [r] + [Op.Delay(100)] by {
        assert t == FailedAttempts(ans, k, SetupRetries + 1) + [];
        LastFailure(ans, k, SetupRetries);
      }
      AttemptLeavesOpen(regs, t, p, r);
    }
  }

  /** The last of `n + 1` failed attempts, split into its three transactions. */
  lemma LastFailure(ans: nat -> Word, k: nat, n: nat)
    ensures FailedAttempts(ans, k, n + 1) ==
      FailedAttempts(ans, k, n) + [UnlockWrite] + [Read(RegOcv, ans(k + n))] + [Op.Delay(100)]
  {
  }

  /** An unlock attempt, with or without the wait after it, leaves the unlock word in the lock register. */
  lemma AttemptLeavesOpen(regs: map<int, Byte>, t: seq<Op>, p: seq<Op>, r: Op)
    requires r.Read?
    requires t == p + [UnlockWrite] + [r] || t == p + [UnlockWrite] + [r] + [Op.Delay(100)]
    ensures var a := Apply(regs, t);
      RegLock in a && a[RegLock] == 0x4A && RegLock + 1 in a && a[RegLock + 1] == 0x57
  {
    ApplySnoc(regs, p + [UnlockWrite] + [r], Op.Delay(100));
    ApplySnoc(regs, p + [UnlockWrite], r);
    ApplyWrite(regs, p, RegLock, 0x4A, 0x57);
  }

  /** The OCV bytes the call writes back are those of the successful attempt's read, which was not 0xFFFF. */
  lemma OriginalOcvIsLastRead(ans: nat -> Word, k: nat)
    requires Proceeds(ans, k)
    ensures var t := UnlockTrace(ans, k);
      |t| >= 2 && t[|t| - 2] == UnlockWrite && t[|t| - 1] == Read(RegOcv, OriginalOcv(ans, k))
    ensures !Locked(OriginalOcv(ans, k))
    ensures forall j :: k <= j < k + Failures(ans, k) ==> Locked(ans(j))
  {
    var m := Failures(ans, k);
    UnlockTraceShape(ans, k);
    var t := UnlockTrace(ans, k);
    assert AttemptOp(ans, k, 3 * m + 1) == Read(RegOcv, ans(k + m));
    assert t[|t| - 1] == AttemptOp(ans, k, 3 * m + 1);
    LockedRunSpec(ans, k, SetupRetries + 1);
  }

  // ---------------------------------------------------------------- table

  /** The bytes carried by the block transmissions of `t`, in order. */
  function BlockBytes(t: seq<Op>): seq<Byte>
    decreases |t|
  {
    if t == [] then [] else BlockBytes(t[..|t| - 1]) + (if t[|t| - 1].Block? then t[|t| - 1].data else [])
  }

  lemma BlockBytesSnoc(t: seq<Op>, op: Op)
    ensures BlockBytes(t + [op]) == BlockBytes(t) + if op.Block? then op.data else []
  {
    assert (t + [op])[..|t|] == t;
  }

  /** Every table transmission is a block write. */
  lemma {:induction false} TableBlocksAreBlocks(data: Table, n: nat)
    requires n <= 4
    ensures |TableBlocks(data, n)| == n
    ensures forall i :: 0 <= i < n ==> TableBlocks(data, n)[i].Block?
    decreases n
  {
    if n > 0 {
      TableBlocksAreBlocks(data, n - 1);
      var p := TableBlocks(data, n - 1);
      assert forall i :: 0 <= i < n - 1 ==> TableBlocks(data, n)[i] == p[i];
    }
  }

  /**
   * The table goes out as exactly four 16-byte transmissions, addressed
   * 0x40, 0x50, 0x60 and 0x70, which carry the 64 model bytes in order.
   */
  lemma TableTransmissions(data: Table)
    ensures TableBlocks(data, 4) ==
      [Block(0x40, data[0..16]), Block(0x50, data[16..32]), Block(0x60, data[32..48]), Block(0x70, data[48..64])]
    ensures BlockBytes(TableBlocks(data, 4)) == data
  {
    var b0, b1 := Block(0x40, data[0..16]), Block(0x50, data[16..32]);
    var b2, b3 := Block(0x60, data[32..48]), Block(0x70, data[48..64]);
    assert TableBlocks(data, 1) == [] + [b0];
    assert TableBlocks(data, 2) == [b0] + [b1];
    assert TableBlocks(data, 3) == [b0] + [b1] + [b2];
    assert TableBlocks(data, 4) == [b0] + [b1] + [b2] + [b3];
    assert [b0] == [] + [b0];
    BlockBytesSnoc([], b0);
    BlockBytesSnoc([b0], b1);
    BlockBytesSnoc([b0] + [b1], b2);
    BlockBytesSnoc([b0] + [b1] + [b2], b3);
    assert data == data[0..16] + data[16..32] + data[32..48] + data[48..64];
  }

  /** After the first `n` transmissions the first `16 * n` table registers hold the model bytes. */
  lemma {:induction false} TableEffect(regs: map<int, Byte>, data: Table, n: nat)
    requires n <= 4
    ensures forall x :: TableBase <= x < TableBase + 16 * n ==>
      x in Apply(regs, TableBlocks(data, n)) && Apply(regs, TableBlocks(data, n))[x] == data[x - TableBase]
    decreases n
  {
    if n > 0 {
      TableEffect(regs, data, n - 1);
      var p := TableBlocks(data, n - 1);
      var b := Block(TableBase + 16 * (n - 1), data[16 * (n - 1)..16 * n]);
      var q, r := Apply(regs, p), Apply(regs, TableBlocks(data, n));
      assert TableBlocks(data, n) == p + [b];
      ApplySnoc(regs, p, b);
      assert r == Store(q, b.addr, b.data);
      forall x | TableBase <= x < TableBase + 16 * n
        ensures x in r && r[x] == data[x - TableBase]
      {
        if x < b.addr {
          StoreKeeps(q, b.addr, b.data, x);
        } else {
          StoreAt(q, b.addr, b.data, x);
        }
      }
    }
  }

  /** The table transmissions change no byte outside the 64 table registers. */
  lemma TableKeeps(regs: map<int, Byte>, data: Table)
    ensures forall x :: x in regs && !(TableBase <= x < TableBase + 64) ==>
      x in Apply(regs, TableBlocks(data, 4)) && Apply(regs, TableBlocks(data, 4))[x] == regs[x]
  {
    var t := TableBlocks(data, 4);
    TableTransmissions(data);
    forall x | x in regs && !(TableBase <= x < TableBase + 64)
      ensures x in Apply(regs, t) && Apply(regs, t)[x] == regs[x]
    {
      ApplyUntouched(regs, t, x);
    }
  }

  // ---------------------------------------------------------------- program stage

  /** The OCV test value goes out as its two low bytes, high byte first. */
  lemma OcvSplit(x: U32)
    ensures OcvMsb(x) * 256 + OcvLsb(x) == x % 0x1_0000
    ensures x < 0x1_0000 ==> OcvMsb(x) * 256 + OcvLsb(x) == x
  {
    var q := x / 256;
    assert x == q * 256 + x % 256;
    assert q == (q / 256) * 256 + q % 256;
    assert x == (q / 256) * 0x1_0000 + (q % 256 * 256 + x % 256);
  }

  /** The default cell's test value 58560 is sent as 0xE4, 0xC0. */
  lemma DefaultOcvBytes()
    ensures OcvMsb(Lg21700.ocvTest) == 0xE4 && OcvLsb(Lg21700.ocvTest) == 0xC0
  {
  }

  /**
   * The transactions of the program stage, in order, leaving out the waits:
   * RCOMP to 0xFF00, the table, the OCV test value, the SOC read, RCOMP to
   * `RCOMP0`, OCV back to the bytes `ocv`, and the lock write.
   */
  lemma ProgramTransactions(cfg: ModelConfig, ocv: Word, soc: Word)
    ensures Transactions(ProgramTrace(cfg, ocv, soc)) ==
      [Write(RegRcomp, 0xFF, 0x00)] + TableBlocks(cfg.modelData, 4)
      + [Write(RegOcv, OcvMsb(cfg.ocvTest), OcvLsb(cfg.ocvTest))] + [Read(RegSoc, soc)]
      + [Write(RegRcomp, cfg.rcomp0, 0x00)] + [Write(RegOcv, ocv.msb, ocv.lsb)] + [LockWrite]
  {
    var tb := TableBlocks(cfg.modelData, 4);
    TableBlocksAreBlocks(cfg.modelData, 4);
    TransactionsNoDelay(tb);
    var w0, wt := Write(RegRcomp, 0xFF, 0x00), Write(RegOcv, OcvMsb(cfg.ocvTest), OcvLsb(cfg.ocvTest));
    var rs, wr, wo := Read(RegSoc, soc), Write(RegRcomp, cfg.rcomp0, 0x00), Write(RegOcv, ocv.msb, ocv.lsb);
    var d := Op.Delay(150);
    var t1 := [w0] + tb;
    TransactionsNoDelay([w0]);
    TransactionsConcat([w0], tb);
    TransactionsSnocDelay(t1, 150);
    TransactionsSnoc(t1 + [d], wt);
    TransactionsSnocDelay(t1 + [d] + [wt], 150);
    TransactionsSnoc(t1 + [d] + [wt] + [d], rs);
    TransactionsSnoc(t1 + [d] + [wt] + [d] + [rs], wr);
    TransactionsSnoc(t1 + [d] + [wt] + [d] + [rs] + [wr], wo);
    TransactionsSnoc(t1 + [d] + [wt] + [d] + [rs] + [wr] + [wo], LockWrite);
    TransactionsSnocDelay(t1 + [d] + [wt] + [d] + [rs] + [wr] + [wo] + [LockWrite], 150);
  }

  /**
   * What the program stage leaves in the RCOMP, OCV and lock registers:
   * RCOMP holds `RCOMP0` (not the value it had before the call), OCV holds
   * the bytes `ocv`, and model access is locked.
   */
  lemma ProgramEffect(cfg: ModelConfig, ocv: Word, soc: Word, regs: map<int, Byte>)
    ensures var r := Apply(regs, ProgramTrace(cfg, ocv, soc));
      RegRcomp in r && r[RegRcomp] == cfg.rcomp0 && RegRcomp + 1 in r && r[RegRcomp + 1] == 0
      && RegOcv in r && r[RegOcv] == ocv.msb && RegOcv + 1 in r && r[RegOcv + 1] == ocv.lsb
      && RegLock in r && r[RegLock] == 0 && RegLock + 1 in r && r[RegLock + 1] == 0
  {
    var t := [Write(RegRcomp, 0xFF, 0x00)] + TableBlocks(cfg.modelData, 4)
      + [Op.Delay(150)] + [Write(RegOcv, OcvMsb(cfg.ocvTest), OcvLsb(cfg.ocvTest))] + [Op.Delay(150)]
      + [Read(RegSoc, soc)];
    var wr, wo := Write(RegRcomp, cfg.rcomp0, 0x00), Write(RegOcv, ocv.msb, ocv.lsb);
    ApplySnoc(regs, t + [wr] + [wo] + [LockWrite], Op.Delay(150));
    ApplyWrite(regs, t + [wr] + [wo], RegLock, 0, 0);
    ApplyWrite(regs, t + [wr], RegOcv, ocv.msb, ocv.lsb);
    ApplyWrite(regs, t, RegRcomp, cfg.rcomp0, 0);
  }

  /** After the program stage the table registers hold the model bytes in order. */
  lemma ProgramTable(cfg: ModelConfig, ocv: Word, soc: Word, regs: map<int, Byte>)
    ensures var r := Apply(regs, ProgramTrace(cfg, ocv, soc));
      forall x :: TableBase <= x < TableBase + 64 ==> x in r && r[x] == cfg.modelData[x - TableBase]
  {
    var w0 := Write(RegRcomp, 0xFF, 0x00);
    var tb := TableBlocks(cfg.modelData, 4);
    var rest := [Op.Delay(150), Write(RegOcv, OcvMsb(cfg.ocvTest), OcvLsb(cfg.ocvTest)), Op.Delay(150),
      Read(RegSoc, soc), Write(RegRcomp, cfg.rcomp0, 0x00), Write(RegOcv, ocv.msb, ocv.lsb),
      LockWrite, Op.Delay(150)];
    assert ProgramTrace(cfg, ocv, soc) == ([w0] + tb) + rest;
    ApplyConcat(regs, [w0], tb);
    ApplyConcat(regs, [w0] + tb, rest);
    var m := Apply(regs, [w0] + tb);
    TableEffect(Apply(regs, [w0]), cfg.modelData, 4);
    forall x | TableBase <= x < TableBase + 64
      ensures x in Apply(m, rest) && Apply(m, rest)[x] == cfg.modelData[x - TableBase]
    {
      assert forall i :: 0 <= i < |rest| ==> !Touches(rest[i], x);
      ApplyUntouched(m, rest, x);
    }
  }

  /** The program stage changes no byte outside RCOMP, OCV, LOCK and the table. */
  lemma ProgramKeeps(cfg: ModelConfig, ocv: Word, soc: Word, regs: map<int, Byte>)
    ensures forall x :: x in regs && !ControlRegister(x) && !TableRegister(x) ==>
      x in Apply(regs, ProgramTrace(cfg, ocv, soc)) && Apply(regs, ProgramTrace(cfg, ocv, soc))[x] == regs[x]
  {
    var w0 := Write(RegRcomp, 0xFF, 0x00);
    var tb := TableBlocks(cfg.modelData, 4);
    var rest := [Op.Delay(150), Write(RegOcv, OcvMsb(cfg.ocvTest), OcvLsb(cfg.ocvTest)), Op.Delay(150),
      Read(RegSoc, soc), Write(RegRcomp, cfg.rcomp0, 0x00), Write(RegOcv, ocv.msb, ocv.lsb),
      LockWrite, Op.Delay(150)];
    assert ProgramTrace(cfg, ocv, soc) == ([w0] + tb) + rest;
    ApplyConcat(regs, [w0], tb);
    ApplyConcat(regs, [w0] + tb, rest);
    var r0 := Apply(regs, [w0]);
    ApplyWrite(regs, [], RegRcomp, 0xFF, 0x00);
    assert [] + [w0] == [w0];
    TableKeeps(r0, cfg.modelData);
    forall x | x in regs && !ControlRegister(x) && !TableRegister(x)
      ensures x in Apply(regs, ProgramTrace(cfg, ocv, soc)) && Apply(regs, ProgramTrace(cfg, ocv, soc))[x] == regs[x]
    {
      ApplySnoc(regs, [], w0);
      assert x in r0 && r0[x] == regs[x];
      ApplyUntouched(Apply(r0, tb), rest, x);
    }
  }

  /** The program stage issues exactly one lock write and no unlock write. */
  lemma ProgramCounts(cfg: ModelConfig, ocv: Word, soc: Word)
    ensures Count(ProgramTrace(cfg, ocv, soc), LockWrite) == 1
    ensures Count(ProgramTrace(cfg, ocv, soc), UnlockWrite) == 0
  {
    var tb := TableBlocks(cfg.modelData, 4);
    TableBlocksAreBlocks(cfg.modelData, 4);
    var w0, wt := Write(RegRcomp, 0xFF, 0x00), Write(RegOcv, OcvMsb(cfg.ocvTest), OcvLsb(cfg.ocvTest));
    var rs, wr, wo := Read(RegSoc, soc), Write(RegRcomp, cfg.rcomp0, 0x00), Write(RegOcv, ocv.msb, ocv.lsb);
    var d := Op.Delay(150);
    var t1 := [w0] + tb;
    assert forall i :: 0 <= i < |t1| ==> t1[i] == w0 || t1[i].Block?;
    CountAbsent(t1, LockWrite);
    CountAbsent(t1, UnlockWrite);
    CountTail(t1, d, wt, rs, wr, wo, LockWrite);
    CountTail(t1, d, wt, rs, wr, wo, UnlockWrite);
  }

  /** Counting `op` through the eight transactions after the table. */
  lemma CountTail(t1: seq<Op>, d: Op, wt: Op, rs: Op, wr: Op, wo: Op, op: Op)
    requires d != op && wt != op && rs != op && wr != op && wo != op
    ensures Count(t1 + [d] + [wt] + [d] + [rs] + [wr] + [wo] + [LockWrite] + [d], op) ==
      Count(t1, op) + (if op == LockWrite then 1 else 0)
  {
    CountSnoc(t1, d, op);
    CountSnoc(t1 + [d], wt, op);
    CountSnoc(t1 + [d] + [wt], d, op);
    CountSnoc(t1 + [d] + [wt] + [d], rs, op);
    CountSnoc(t1 + [d] + [wt] + [d] + [rs], wr, op);
    CountSnoc(t1 + [d] + [wt] + [d] + [rs] + [wr], wo, op);
    CountSnoc(t1 + [d] + [wt] + [d] + [rs] + [wr] + [wo], LockWrite, op);
    CountSnoc(t1 + [d] + [wt] + [d] + [rs] + [wr] + [wo] + [LockWrite], d, op);
  }

  // ---------------------------------------------------------------- the whole call

  /**
   * A call makes at most `SetupRetries + 1` unlock attempts, one OCV read
   * each, and issues one lock write if it gets past the unlock stage and
   * none otherwise.
   */
  lemma LoadCounts(cfg: ModelConfig, ans: nat -> Word, k: nat)
    ensures Count(LoadTrace(cfg, ans, k), UnlockWrite) == UnlockReads(ans, k) <= SetupRetries + 1
    ensures Count(LoadTrace(cfg, ans, k), LockWrite) == if Proceeds(ans, k) then 1 else 0
  {
    var ut := UnlockTrace(ans, k);
    UnlockAttempts(ans, k);
    UnlockOps(ans, k);
    CountAbsent(ut, LockWrite);
    if Proceeds(ans, k) {
      var pt := ProgramTrace(cfg, OriginalOcv(ans, k), SocReply(ans, k));
      ProgramCounts(cfg, OriginalOcv(ans, k), SocReply(ans, k));
      CountConcat(ut, pt, UnlockWrite);
      CountConcat(ut, pt, LockWrite);
    } else {
      assert LoadTrace(cfg, ans, k) == ut + [];
      assert ut + [] == ut;
    }
  }

  /**
   * `load_config` returns only NONE or IO. It returns NONE exactly when an
   * attempt within the first `SetupRetries` unlocks model access and the high
   * SOC byte lies in the inclusive band, and IO exactly when the first
   * `SetupRetries` OCV reads all show 0xFFFF or the byte is out of band.
   */
  lemma LoadStatusSpec(cfg: ModelConfig, ans: nat -> Word, k: nat)
    ensures LoadStatus(cfg, ans, k) == None || LoadStatus(cfg, ans, k) == Io
    ensures LoadStatus(cfg, ans, k) == None <==> Proceeds(ans, k) && LoadBand(cfg, SocReply(ans, k).msb)
    ensures LoadStatus(cfg, ans, k) == Io <==>
      (forall j :: k <= j < k + SetupRetries ==> Locked(ans(j))) || !LoadBand(cfg, SocReply(ans, k).msb)
  {
    GivesUpIff(ans, k);
  }

  /**
   * Past the unlock stage, the call's transactions in order, leaving out the
   * waits: the unlock attempts, then the program stage, whose SOC read is the
   * read after the successful attempt and whose OCV restore writes the bytes
   * that attempt read. The restore and lock writes are issued whatever the
   * SOC check decides.
   */
  lemma LoadWriteOrder(cfg: ModelConfig, ans: nat -> Word, k: nat)
    requires Proceeds(ans, k)
    ensures var o := OriginalOcv(ans, k);
      Transactions(LoadTrace(cfg, ans, k)) ==
      Transactions(UnlockTrace(ans, k))
      + [Write(RegRcomp, 0xFF, 0x00)] + TableBlocks(cfg.modelData, 4)
      + [Write(RegOcv, OcvMsb(cfg.ocvTest), OcvLsb(cfg.ocvTest)), Read(RegSoc, SocReply(ans, k)),
         Write(RegRcomp, cfg.rcomp0, 0x00), Write(RegOcv, o.msb, o.lsb), LockWrite]
  {
    var o, s := OriginalOcv(ans, k), SocReply(ans, k);
    TransactionsConcat(UnlockTrace(ans, k), ProgramTrace(cfg, o, s));
    ProgramTransactions(cfg, o, s);
  }

  /** Whether `x` is one of the bytes of RCOMP, OCV or LOCK. */
  predicate ControlRegister(x: int)
  {
    RegRcomp <= x <= RegOcv + 1 || x == RegLock || x == RegLock + 1
  }

  /** Whether `x` is one of the 64 table registers. */
  predicate TableRegister(x: int)
  {
    TableBase <= x < TableBase + 64
  }

  /**
   * A register file holding a freshly loaded model: RCOMP holds `RCOMP0`,
   * OCV the bytes `ocv`, model access is locked and the table holds the
   * model bytes.
   */
  predicate Loaded(cfg: ModelConfig, ocv: Word, r: map<int, Byte>)
  {
    RegRcomp in r && r[RegRcomp] == cfg.rcomp0 && RegRcomp + 1 in r && r[RegRcomp + 1] == 0
    && RegOcv in r && r[RegOcv] == ocv.msb && RegOcv + 1 in r && r[RegOcv + 1] == ocv.lsb
    && RegLock in r && r[RegLock] == 0 && RegLock + 1 in r && r[RegLock + 1] == 0
    && forall x :: TableBase <= x < TableBase + 64 ==> x in r && r[x] == cfg.modelData[x - TableBase]
  }

  /** Locking model access again leaves a loaded register file loaded. */
  lemma LoadedRelock(cfg: ModelConfig, ocv: Word, r: map<int, Byte>)
    requires Loaded(cfg, ocv, r)
    ensures Loaded(cfg, ocv, ApplyOp(r, LockWrite))
  {
    var a := ApplyOp(r, LockWrite);
    forall x | TableBase <= x < TableBase + 64
      ensures x in a && a[x] == cfg.modelData[x - TableBase]
    {
      assert x in r && r[x] == cfg.modelData[x - TableBase];
    }
  }

  /**
   * What a call that gets past the unlock stage leaves in the registers:
   * RCOMP holds `RCOMP0`, OCV holds the bytes read on the successful unlock
   * attempt, model access is locked and the table holds the model bytes,
   * whatever the SOC check decides.
   */
  lemma LoadEffect(cfg: ModelConfig, ans: nat -> Word, k: nat, regs: map<int, Byte>)
    requires Proceeds(ans, k)
    ensures Loaded(cfg, OriginalOcv(ans, k), Apply(regs, LoadTrace(cfg, ans, k)))
  {
    var o, s := OriginalOcv(ans, k), SocReply(ans, k);
    var ut, pt := UnlockTrace(ans, k), ProgramTrace(cfg, o, s);
    assert LoadTrace(cfg, ans, k) == ut + pt;
    ApplyConcat(regs, ut, pt);
    ProgramLoaded(cfg, o, s, Apply(regs, ut));
  }

  /** A call that gets past the unlock stage changes no byte outside RCOMP, OCV, LOCK and the table. */
  lemma LoadKeeps(cfg: ModelConfig, ans: nat -> Word, k: nat, regs: map<int, Byte>)
    requires Proceeds(ans, k)
    ensures forall x :: x in regs && !ControlRegister(x) && !TableRegister(x) ==>
      x in Apply(regs, LoadTrace(cfg, ans, k)) && Apply(regs, LoadTrace(cfg, ans, k))[x] == regs[x]
  {
    var o, s := OriginalOcv(ans, k), SocReply(ans, k);
    var ut, pt := UnlockTrace(ans, k), ProgramTrace(cfg, o, s);
    assert LoadTrace(cfg, ans, k) == ut + pt;
    ApplyConcat(regs, ut, pt);
    UnlockKeeps(ans, k, regs);
    ProgramKeeps(cfg, o, s, Apply(regs, ut));
  }

  /** The program stage, whatever came before it, leaves a loaded register file. */
  lemma ProgramLoaded(cfg: ModelConfig, ocv: Word, soc: Word, regs: map<int, Byte>)
    ensures Loaded(cfg, ocv, Apply(regs, ProgramTrace(cfg, ocv, soc)))
  {
    ProgramEffect(cfg, ocv, soc, regs);
    ProgramTable(cfg, ocv, soc, regs);
  }
}
