/** Composing runs of emitted code. */
module Execution {
  import opened Machine
  import opened Builders
  import opened Transfers
  import opened Emission
  import opened ExecPrimitive

  /** The code from a to b performs the transfers ts and keeps the registers below k. */
  ghost predicate Done(p: seq<Block>, k: nat, a: Builder, b: Builder, conf: Conf, conf': Conf, ts: seq<Transfer>) {
    && Ok(a) && Ok(b) && k <= a.next <= b.next
    && Reaches(p, At(a, conf), At(b, conf')) && Keeps(conf.regs, conf'.regs, k)
    && conf'.mem == Copy(conf.mem, ts)
  }

  function Set(c: Conf, r: nat, v: int): Conf { c.(regs := c.regs[r := v]) }

  lemma DoneNothing(p: seq<Block>, b: Builder, conf: Conf)
    requires Ok(b)
    ensures Done(p, b.next, b, b, conf, conf, [])
  {
    assert Run(p, At(b, conf), 0) == At(b, conf);
  }

  lemma Weaken(p: seq<Block>, k: nat, j: nat, a: Builder, b: Builder, conf: Conf, conf': Conf, ts: seq<Transfer>)
    requires Done(p, k, a, b, conf, conf', ts) && j <= k
    ensures Done(p, j, a, b, conf, conf', ts)
  {}

  lemma Then(p: seq<Block>, k: nat, a: Builder, b: Builder, c: Builder, conf: Conf, conf1: Conf, conf2: Conf,
             ts: seq<Transfer>, us: seq<Transfer>)
    requires Done(p, k, a, b, conf, conf1, ts) && Done(p, b.next, b, c, conf1, conf2, us)
    ensures Done(p, k, a, c, conf, conf2, ts + us)
  {
    Chain(p, At(a, conf), At(b, conf1), At(c, conf2));
    CopyConcat(conf.mem, ts, us);
  }

  /** Around a loop: from the head to the head, then from the head to the exit. */
  lemma Around(p: seq<Block>, k: nat, a: Builder, c: Builder, conf: Conf, conf1: Conf, conf2: Conf,
               ts: seq<Transfer>, us: seq<Transfer>)
    requires Done(p, k, a, a, conf, conf1, ts) && Done(p, k, a, c, conf1, conf2, us)
    ensures Done(p, k, a, c, conf, conf2, ts + us)
  {
    Chain(p, At(a, conf), At(a, conf1), At(c, conf2));
    CopyConcat(conf.mem, ts, us);
  }

  /** One more computed register. */
  lemma ThenLet(p: seq<Block>, k: nat, a: Builder, b: Builder, e: Expr, conf: Conf, conf1: Conf, ts: seq<Transfer>)
    returns (conf2: Conf)
    requires Done(p, k, a, b, conf, conf1, ts) && Le(Bind(b, e).blocks, p) && Computable(conf1.regs, e)
    ensures Done(p, k, a, Bind(b, e), conf, conf2, ts)
    ensures conf2 == Set(conf1, b.next, Value(conf1.regs, e))
  {
    BindRuns(p, b, e, conf1);
    conf2 := Set(conf1, b.next, Value(conf1.regs, e));
    Chain(p, At(a, conf), At(b, conf1), At(Bind(b, e), conf2));
  }

  /** A pointer increment. */
  lemma ThenAdd(p: seq<Block>, k: nat, a: Builder, b: Builder, r: nat, inc: int, conf: Conf, conf1: Conf,
                ts: seq<Transfer>)
    returns (conf2: Conf)
    requires Done(p, k, a, b, conf, conf1, ts) && Le(Bind(b, Add64(Reg(r), Imm(inc))).blocks, p) && r in conf1.regs
    ensures Done(p, k, a, Bind(b, Add64(Reg(r), Imm(inc))), conf, conf2, ts)
    ensures conf2 == Set(conf1, b.next, Wrap(inc + conf1.regs[r]))
  {
    hide Done, Le, Bind;
    conf2 := ThenLet(p, k, a, b, Add64(Reg(r), Imm(inc)), conf, conf1, ts);
    WrapWrap(inc, conf1.regs[r]);
  }

  /** The increment of an i32 counter. */
  lemma ThenCount(p: seq<Block>, k: nat, a: Builder, b: Builder, r: nat, conf: Conf, conf1: Conf, ts: seq<Transfer>)
    returns (conf2: Conf)
    requires Done(p, k, a, b, conf, conf1, ts) && Le(Bind(b, Add32(Reg(r), Imm(1))).blocks, p) && r in conf1.regs
    ensures Done(p, k, a, Bind(b, Add32(Reg(r), Imm(1))), conf, conf2, ts)
    ensures conf2 == Set(conf1, b.next, Wrap32(conf1.regs[r] + 1))
  {
    hide Done, Le, Bind;
    conf2 := ThenLet(p, k, a, b, Add32(Reg(r), Imm(1)), conf, conf1, ts);
  }

  lemma ThenTest(p: seq<Block>, k: nat, a: Builder, b: Builder, x: Operand, y: Operand, conf: Conf, conf1: Conf,
                 ts: seq<Transfer>)
    returns (conf2: Conf)
    requires Done(p, k, a, b, conf, conf1, ts) && Le(Bind(b, Equal(x, y)).blocks, p) && Def(conf1.regs, x)
      && Def(conf1.regs, y)
    ensures Done(p, k, a, Bind(b, Equal(x, y)), conf, conf2, ts)
    ensures conf2 == Set(conf1, b.next, if Ev(conf1.regs, x) == Ev(conf1.regs, y) then 1 else 0)
  {
    hide Done, Le, Bind;
    conf2 := ThenLet(p, k, a, b, Equal(x, y), conf, conf1, ts);
  }

  lemma ThenStartLoop(p: seq<Block>, k: nat, a: Builder, b: Builder, inits: seq<Operand>, conf: Conf, conf1: Conf,
                      ts: seq<Transfer>)
    returns (conf2: Conf)
    requires Done(p, k, a, b, conf, conf1, ts) && Le(StartLoop(b, inits).blocks, p) && AllDef(conf1.regs, inits)
    ensures Done(p, k, a, StartLoop(b, inits), conf, conf2, ts)
    ensures conf2 == conf1.(regs := SetAll(conf1.regs, b.next, inits))
  {
    StartLoopRuns(p, b, inits, conf1);
    conf2 := conf1.(regs := SetAll(conf1.regs, b.next, inits));
    SetAllKeeps(conf1.regs, b.next, inits);
    Chain(p, At(a, conf), At(b, conf1), At(StartLoop(b, inits), conf2));
  }

  lemma {:induction false} SetAllKeeps(regs: Registers, first: nat, os: seq<Operand>)
    requires AllDef(regs, os)
    ensures forall r :: 0 <= r < first && r in regs ==>
      r in SetAll(regs, first, os) && SetAll(regs, first, os)[r] == regs[r]
  {
    if os != [] { SetAllKeeps(regs, first, os[..|os| - 1]); }
  }

  lemma ThenExit(p: seq<Block>, k: nat, a: Builder, b: Builder, loop: nat, latch: nat, cond: Operand,
                 nexts: seq<Operand>, conf: Conf, conf1: Conf, ts: seq<Transfer>)
    requires Done(p, k, a, b, conf, conf1, ts) && CanEndLoop(b, loop, nexts)
    requires Le(EndLoop(b, loop, latch, cond, nexts).blocks, p)
    requires Def(conf1.regs, cond) && Ev(conf1.regs, cond) != 0
    ensures Done(p, k, a, EndLoop(b, loop, latch, cond, nexts), conf, conf1, ts)
  {
    EndLoopExits(p, b, loop, latch, cond, nexts, conf1);
    Chain(p, At(a, conf), At(b, conf1), At(EndLoop(b, loop, latch, cond, nexts), conf1));
  }

  /** Back to the head `a` of the loop, whose phis are k, k + 1, ... */
  lemma ThenRepeat(p: seq<Block>, k: nat, a: Builder, b: Builder, pre: nat, cond: Operand, nexts: seq<Operand>,
                   conf: Conf, conf1: Conf, ts: seq<Transfer>)
    returns (conf2: Conf)
    requires Done(p, k, a, b, conf, conf1, ts) && Heads(b, a.cur, pre, k, |nexts|)
    requires a.blocks[a.cur].instrs == []
    requires Le(EndLoop(b, a.cur, b.cur, cond, nexts).blocks, p)
    requires Def(conf1.regs, cond) && Ev(conf1.regs, cond) == 0 && AllDef(conf1.regs, nexts)
    ensures Done(p, k, a, a, conf, conf2, ts)
    ensures conf2 == conf1.(regs := SetAll(conf1.regs, k, nexts))
  {
    EndLoopRepeats(p, b, a.cur, pre, k, cond, nexts, conf1);
    conf2 := conf1.(regs := SetAll(conf1.regs, k, nexts));
    SetAllKeeps(conf1.regs, k, nexts);
    Chain(p, At(a, conf), At(b, conf1), At(a, conf2));
  }

  /** A loop entered without transfers. */
  lemma ThenLoop(p: seq<Block>, k: nat, a: Builder, head: Builder, c: Builder, conf: Conf, conf1: Conf, conf2: Conf,
                 ts: seq<Transfer>)
    requires Done(p, k, a, head, conf, conf1, []) && Done(p, k, head, c, conf1, conf2, ts)
    ensures Done(p, k, a, c, conf, conf2, ts)
  {
    Chain(p, At(a, conf), At(head, conf1), At(c, conf2));
  }

  /** Transfers after code that made none. */
  lemma ThenMoves(p: seq<Block>, k: nat, a: Builder, b: Builder, c: Builder, conf: Conf, conf1: Conf, conf2: Conf,
                  ts: seq<Transfer>)
    requires Done(p, k, a, b, conf, conf1, []) && Done(p, b.next, b, c, conf1, conf2, ts)
    ensures Done(p, k, a, c, conf, conf2, ts)
  {
    Chain(p, At(a, conf), At(b, conf1), At(c, conf2));
  }

  /** Operands older than k keep their values. */
  lemma Kept(p: seq<Block>, k: nat, a: Builder, b: Builder, conf: Conf, conf': Conf, ts: seq<Transfer>, o: Operand)
    requires Done(p, k, a, b, conf, conf', ts) && Usable(conf.regs, o, k)
    ensures Usable(conf'.regs, o, k) && Ev(conf'.regs, o) == Ev(conf.regs, o)
    ensures k <= a.next <= b.next
  {}
}
