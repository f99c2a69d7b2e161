/** What a caller of a code generator provides, what the emitted code then does, and the loop heads the
    generators share. */
module Calls {
  import opened Datatypes
  import opened Wellformed
  import opened Machine
  import opened Builders
  import opened Transfers
  import opened Emission
  import opened Routes
  import opened ExecPrimitive
  import opened Execution

  /** The operands of a generator: two addresses and an item count, all known before register k. */
  ghost predicate Args(regs: Registers, k: nat, inbuf: Operand, n: Operand, outbuf: Operand) {
    && Usable(regs, inbuf, k) && Usable(regs, n, k) && Usable(regs, outbuf, k)
    && 0 <= Ev(regs, inbuf) < W && 0 <= Ev(regs, outbuf) < W && 0 <= Ev(regs, n) < W32
    && (n.Imm? ==> 0 <= n.value <= INT32_MAX)
  }

  lemma ArgsOf(regs: Registers, k: nat, inbuf: Operand, n: Operand, outbuf: Operand)
    requires Args(regs, k, inbuf, n, outbuf)
    ensures Def(regs, inbuf) && Def(regs, n) && Def(regs, outbuf)
    ensures 0 <= Ev(regs, n) < W32 && 0 <= Ev(regs, inbuf) < W && 0 <= Ev(regs, outbuf) < W
  {}

  /** What a caller of packCodegen or unpackCodegen provides. */
  ghost predicate Called(p: seq<Block>, t: Datatype, pack: bool, b: Builder, inbuf: Operand, n: Operand,
                         outbuf: Operand, conf: Conf)
  {
    && Ok(b) && Le(Emit(t, pack, b, inbuf, n, outbuf).blocks, p)
    && Args(conf.regs, b.next, inbuf, n, outbuf) && CountOk(t, Ev(conf.regs, n))
    && Ready(conf.mem, Along(RouteCopies(t, pack, Ev(conf.regs, n)), Ev(conf.regs, inbuf), Ev(conf.regs, outbuf)))
  }

  /** What the emitted code then does: exactly its route, in order. */
  ghost predicate Answered(p: seq<Block>, t: Datatype, pack: bool, b: Builder, inbuf: Operand, n: Operand,
                           outbuf: Operand, conf: Conf, conf': Conf)
  {
    && Ok(b) && Args(conf.regs, b.next, inbuf, n, outbuf)
    && Done(p, b.next, b, Emit(t, pack, b, inbuf, n, outbuf), conf, conf',
            Along(RouteCopies(t, pack, Ev(conf.regs, n)), Ev(conf.regs, inbuf), Ev(conf.regs, outbuf)))
  }

  /** The code emitted for t runs as its route says wherever it is emitted in p: what the generator of a
      parent assumes about its base. */
  ghost predicate Runs(p: seq<Block>, t: Datatype, pack: bool) {
    forall b, inbuf, n, outbuf, conf :: Called(p, t, pack, b, inbuf, n, outbuf, conf) ==>
      exists conf' :: Answered(p, t, pack, b, inbuf, n, outbuf, conf, conf')
  }

  lemma RunBase(p: seq<Block>, t: Datatype, pack: bool, b: Builder, inbuf: Operand, n: Operand, outbuf: Operand,
                conf: Conf)
    returns (conf': Conf)
    requires Runs(p, t, pack) && Called(p, t, pack, b, inbuf, n, outbuf, conf)
    ensures Answered(p, t, pack, b, inbuf, n, outbuf, conf, conf')
  {
    hide Called, Answered;
    conf' :| Answered(p, t, pack, b, inbuf, n, outbuf, conf, conf');
  }

  // ----- loop heads -----

  /** The phis of a loop over two pointers. */
  ghost predicate Head2(regs: Registers, k: nat, x: int, y: int) {
    k in regs && k + 1 in regs && regs[k] == x && regs[k + 1] == y && 0 <= x < W && 0 <= y < W
  }

  /** The phis of a counting loop: two pointers and the counter. */
  ghost predicate Head3(regs: Registers, k: nat, x: int, y: int, i: int) {
    && k in regs && k + 1 in regs && k + 2 in regs
    && regs[k] == x && regs[k + 1] == y && regs[k + 2] == i
    && 0 <= x < W && 0 <= y < W && 0 <= i < W32
  }

  lemma DoneMemory(p: seq<Block>, k: nat, a: Builder, b: Builder, conf: Conf, conf': Conf, ts: seq<Transfer>)
    requires Done(p, k, a, b, conf, conf', ts)
    ensures conf'.mem == Copy(conf.mem, ts)
  {}
}
