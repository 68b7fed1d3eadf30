/**
 * The register channel of the MAX17043 fuel gauge and an abstract model of
 * the chip behind it.
 *
 * Every transaction the driver issues is one event of a log: a word write
 * (register pair `addr`, `addr + 1`), a word read, a 16-byte block write into
 * the model table, or a delay. The chip's answers to reads are an oracle: the
 * n-th read transaction returns `answer(n)`, whatever the register, because
 * the chip computes VCELL, SOC and the locked/unlocked OCV read-back itself.
 * Writes are stored in a byte-addressed register file.
 */
module Bus {

  type Byte = x: int | 0 <= x < 256

  /** The two bytes of one register pair, most significant first. */
  datatype Word = Word(msb: Byte, lsb: Byte)

  /** One bus transaction, or a wait between transactions. */
  datatype Op =
    | Write(addr: Byte, msb: Byte, lsb: Byte)
    | Read(addr: Byte, reply: Word)
    | Block(addr: Byte, data: seq<Byte>)
    | Delay(ms: nat)

  // Register map of the chip (register pairs, big-endian).
  const RegVcell: Byte := 0x02
  const RegSoc: Byte := 0x04
  const RegRcomp: Byte := 0x0C
  const RegOcv: Byte := 0x0E
  const RegLock: Byte := 0x3E
  const TableBase: Byte := 0x40

  /** The word written to the lock register to open model access. */
  const UnlockWrite: Op := Write(RegLock, 0x4A, 0x57)
  /** The word written to the lock register to close model access. */
  const LockWrite: Op := Write(RegLock, 0x00, 0x00)

  /** What one transaction leaves in the register file. */
  function ApplyOp(regs: map<int, Byte>, op: Op): map<int, Byte>
  {
    match op
    case Write(a, m, l) => regs[a := m][a + 1 := l]
    case Block(a, d) => Store(regs, a, d)
    case Read(_, _) => regs
    case Delay(_) => regs
  }

  /** `regs` with the bytes of `d` stored at consecutive addresses from `a`. */
  function Store(regs: map<int, Byte>, a: int, d: seq<Byte>): map<int, Byte>
    decreases |d|
  {
    if d == [] then regs else Store(regs[a := d[0]], a + 1, d[1..])
  }

  /** The register file after the transactions of `t`, in order. */
  function Apply(regs: map<int, Byte>, t: seq<Op>): map<int, Byte>
    decreases |t|
  {
    if t == [] then regs else ApplyOp(Apply(regs, t[..|t| - 1]), t[|t| - 1])
  }

  lemma ApplySnoc(regs: map<int, Byte>, t: seq<Op>, op: Op)
    ensures Apply(regs, t + [op]) == ApplyOp(Apply(regs, t), op)
  {
    assert (t + [op])[..|t|] == t;
  }

  /** Running the log in two pieces is running it at once. */
  lemma {:induction false} ApplyConcat(regs: map<int, Byte>, a: seq<Op>, b: seq<Op>)
    ensures Apply(regs, a + b) == Apply(Apply(regs, a), b)
    decreases |b|
  {
    if b == [] {
      assert a + b == a;
    } else {
      var b' := b[..|b| - 1];
      assert a + b == (a + b') + [b[|b| - 1]];
      assert b == b' + [b[|b| - 1]];
      ApplySnoc(regs, a + b', b[|b| - 1]);
      ApplySnoc(Apply(regs, a), b', b[|b| - 1]);
      ApplyConcat(regs, a, b');
    }
  }

  /** Number of occurrences of `op` in `t`. */
  function Count(t: seq<Op>, op: Op): nat
    decreases |t|
  {
    if t == [] then 0 else Count(t[..|t| - 1], op) + (if t[|t| - 1] == op then 1 else 0)
  }

  lemma CountSnoc(t: seq<Op>, x: Op, op: Op)
    ensures Count(t + [x], op) == Count(t, op) + (if x == op then 1 else 0)
  {
    assert (t + [x])[..|t|] == t;
  }

  lemma {:induction false} CountAbsent(t: seq<Op>, op: Op)
    requires op !in t
    ensures Count(t, op) == 0
    decreases |t|
  {
    if t != [] {
      assert t[..|t| - 1] + [t[|t| - 1]] == t;
      CountAbsent(t[..|t| - 1], op);
    }
  }

  lemma {:induction false} CountConcat(a: seq<Op>, b: seq<Op>, op: Op)
    ensures Count(a + b, op) == Count(a, op) + Count(b, op)
    decreases |b|
  {
    if b == [] {
      assert a + b == a;
    } else {
      var b' := b[..|b| - 1];
      assert a + b == (a + b') + [b[|b| - 1]];
      assert (a + b)[..|a + b| - 1] == a + b';
      CountConcat(a, b', op);
    }
  }

  /** The log without its delays: the bus transactions alone, in order. */
  function Transactions(t: seq<Op>): seq<Op>
    decreases |t|
  {
    if t == [] then []
    else Transactions(t[..|t| - 1]) + (if t[|t| - 1].Delay? then [] else [t[|t| - 1]])
  }

  lemma TransactionsSnoc(t: seq<Op>, op: Op)
    requires !op.Delay?
    ensures Transactions(t + [op]) == Transactions(t) + [op]
  {
    assert (t + [op])[..|t|] == t;
  }

  lemma TransactionsSnocDelay(t: seq<Op>, ms: nat)
    ensures Transactions(t + [Delay(ms)]) == Transactions(t)
  {
    assert (t + [Delay(ms)])[..|t|] == t;
  }

  /** A log without delays is its own list of transactions. */
  lemma {:induction false} TransactionsNoDelay(t: seq<Op>)
    requires forall i :: 0 <= i < |t| ==> !t[i].Delay?
    ensures Transactions(t) == t
    decreases |t|
  {
    if t != [] {
      TransactionsNoDelay(t[..|t| - 1]);
      assert t[..|t| - 1] + [t[|t| - 1]] == t;
    }
  }

  lemma {:induction false} TransactionsConcat(a: seq<Op>, b: seq<Op>)
    ensures Transactions(a + b) == Transactions(a) + Transactions(b)
    decreases |b|
  {
    if b == [] {
      assert a + b == a;
    } else {
      var b' := b[..|b| - 1];
      assert a + b == (a + b') + [b[|b| - 1]];
      assert (a + b)[..|a + b| - 1] == a + b';
      assert (a + b)[|a + b| - 1] == b[|b| - 1];
      TransactionsConcat(a, b');
      assert Transactions(a + b) == Transactions(a + b') + Transactions([b[|b| - 1]]);
    }
  }

  /**
   * The chip as the driver sees it: the oracle answering its reads, the
   * number of reads answered so far, and the log of every transaction since
   * the driver was attached, when the register file was `regs0`.
   */
  class Device {
    const answer: nat -> Word
    var readCount: nat
    ghost const regs0: map<int, Byte>
    ghost var trace: seq<Op>

    /** The register file now: what the logged writes have left in it. */
    ghost function Regs(): map<int, Byte>
      reads this
    {
      Apply(regs0, trace)
    }

    constructor (answer: nat -> Word, regs: map<int, Byte>)
      ensures this.answer == answer && Regs() == regs
      ensures readCount == 0 && trace == []
    {
      this.answer := answer;
      regs0 := regs;
      readCount := 0;
      trace := [];
    }

    /** One register-pair read transaction. */
    method ReadWord(addr: Byte) returns (w: Word)
      modifies this
      ensures w == answer(old(readCount)) && readCount == old(readCount) + 1
      ensures trace == old(trace) + [Read(addr, w)]
    {
      w := answer(readCount);
      readCount := readCount + 1;
      trace := trace + [Read(addr, w)];
    }

    /** One register-pair write transaction. */
    method WriteWord(addr: Byte, msb: Byte, lsb: Byte)
      modifies this
      ensures readCount == old(readCount)
      ensures trace == old(trace) + [Write(addr, msb, lsb)]
    {
      trace := trace + [Write(addr, msb, lsb)];
    }

    /** One transmission of consecutive bytes starting at register `addr`. */
    method WriteBlock(addr: Byte, data: seq<Byte>)
      modifies this
      ensures readCount == old(readCount)
      ensures trace == old(trace) + [Block(addr, data)]
    {
      trace := trace + [Block(addr, data)];
    }

    /** A blocking wait; only its place in the log is modelled. */
    method Delay(ms: nat)
      modifies this
      ensures readCount == old(readCount)
      ensures trace == old(trace) + [Op.Delay(ms)]
    {
      trace := trace + [Op.Delay(ms)];
    }
  }
}
