/**
 * Which registers a log of transactions can change, and what a block write
 * leaves in the register file: the facts the register-level properties of
 * the driver are proved from.
 */
module Registers {
  import opened Bus

  /** Whether `op` may change the byte at address `x`. */
  predicate Touches(op: Op, x: int)
  {
    match op
    case Write(a, _, _) => x == a || x == a + 1
    case Block(a, d) => a <= x < a + |d|
    case Read(_, _) => false
    case Delay(_) => false
  }

  /** A block write stores its bytes in order from its address and leaves every other byte alone. */
  lemma {:induction false} StoreSpec(regs: map<int, Byte>, a: int, d: seq<Byte>)
    ensures forall x :: a <= x < a + |d| ==> x in Store(regs, a, d) && Store(regs, a, d)[x] == d[x - a]
    ensures forall x :: x in regs && !(a <= x < a + |d|) ==> x in Store(regs, a, d) && Store(regs, a, d)[x] == regs[x]
    decreases |d|
  {
    if d != [] {
      var rest := Store(regs[a := d[0]], a + 1, d[1..]);
      assert Store(regs, a, d) == rest;
      StoreSpec(regs[a := d[0]], a + 1, d[1..]);
      forall x | a <= x < a + |d|
        ensures x in rest && rest[x] == d[x - a]
      {
        if x > a {
          assert d[1..][x - (a + 1)] == d[x - a];
        } else {
          assert a in regs[a := d[0]];
        }
      }
    }
  }

  /** One byte of a block write: the byte stored there. */
  lemma StoreAt(regs: map<int, Byte>, a: int, d: seq<Byte>, x: int)
    requires a <= x < a + |d|
    ensures x in Store(regs, a, d) && Store(regs, a, d)[x] == d[x - a]
  {
    StoreSpec(regs, a, d);
  }

  /** One byte outside a block write: unchanged. */
  lemma StoreKeeps(regs: map<int, Byte>, a: int, d: seq<Byte>, x: int)
    requires x in regs && !(a <= x < a + |d|)
    ensures x in Store(regs, a, d) && Store(regs, a, d)[x] == regs[x]
  {
    StoreSpec(regs, a, d);
  }

  /** A byte no transaction of `t` touches keeps its value through `t`. */
  lemma {:induction false} ApplyUntouched(regs: map<int, Byte>, t: seq<Op>, x: int)
    requires x in regs
    requires forall i :: 0 <= i < |t| ==> !Touches(t[i], x)
    ensures x in Apply(regs, t) && Apply(regs, t)[x] == regs[x]
    decreases |t|
  {
    if t != [] {
      var t' := t[..|t| - 1];
      ApplyUntouched(regs, t', x);
      var op := t[|t| - 1];
      assert !Touches(op, x);
      if op.Block? {
        StoreSpec(Apply(regs, t'), op.addr, op.data);
      }
    }
  }

  /** A word write is visible in both bytes of its register pair. */
  lemma ApplyWrite(regs: map<int, Byte>, t: seq<Op>, a: Byte, m: Byte, l: Byte)
    ensures var r := Apply(regs, t + [Write(a, m, l)]);
      a in r && r[a] == m && a + 1 in r && r[a + 1] == l
  {
    ApplySnoc(regs, t, Write(a, m, l));
  }
}
