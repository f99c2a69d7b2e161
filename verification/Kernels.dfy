/** The two hand-written LLVM kernels for vec(32,5,180)[double]: the reference, with counters and
    memcpy, and the optimised one, unrolled by four, with a pointer as exit test and another way to
    compute the next item's address.  Both are programs of the same IR as the emitted code. */
module Kernels {
  import opened Arithmetic
  import opened Datatypes
  import opened Typemap
  import opened Wellformed
  import opened Bounds
  import opened Mpi
  import opened MpiTrees
  import opened Compression
  import opened Machine
  import opened Builders
  import opened Transfers
  import opened ExecPrimitive
  import opened Execution
  import opened Emission
  import opened Support
  import opened Compilation

  const VEC := Vector(32, 5, 180, Primitive(DOUBLE))

  /** vector_double_32_5_180.ll; the registers 0, 1, 2 are inbuf, count and outbuf. */
  function Optimised(): seq<Block> {
    [Block([], [], Br(1)),
     // outerloop: out1 = 3, in1 = 4, i = 5
     Block([Phi(3, [Incoming(Reg(2), 0), Incoming(Reg(6), 3)]),
            Phi(4, [Incoming(Reg(0), 0), Incoming(Reg(18), 3)]),
            Phi(5, [Incoming(Imm(0), 0), Incoming(Reg(19), 3)])],
           [Let(6, Add64(Reg(3), Imm(1280)))],
           Br(2)),
     // innerloop: out2.1 = 7, in2.1 = 8
     Block([Phi(7, [Incoming(Reg(3), 1), Incoming(Reg(15), 2)]),
            Phi(8, [Incoming(Reg(4), 1), Incoming(Reg(16), 2)])],
           [Let(9, Add64(Reg(7), Imm(40))), Let(10, Add64(Reg(8), Imm(1440))),
            Let(11, Add64(Reg(9), Imm(40))), Let(12, Add64(Reg(10), Imm(1440))),
            Let(13, Add64(Reg(11), Imm(40))), Let(14, Add64(Reg(12), Imm(1440))),
            Let(15, Add64(Reg(13), Imm(40))), Let(16, Add64(Reg(14), Imm(1440))),
            VMove(Reg(7), Reg(8), 40), VMove(Reg(9), Reg(10), 40),
            VMove(Reg(11), Reg(12), 40), VMove(Reg(13), Reg(14), 40),
            Let(17, Equal(Reg(15), Reg(6)))],
           CondBr(Reg(17), 3, 2)),
     // afterinner
     Block([],
           [Let(18, Add64(Reg(4), Imm(44680))), Let(19, Add32(Reg(5), Imm(1))), Let(20, Equal(Reg(19), Reg(1)))],
           CondBr(Reg(20), 4, 1)),
     Block([], [], Ret)]
  }

  /** vector_double_32_5_180_old.ll. */
  function Reference(): seq<Block> {
    [Block([], [], Br(1)),
     // outerloop: out1 = 3, in1 = 4, i = 5
     Block([Phi(3, [Incoming(Reg(2), 0), Incoming(Reg(9), 3)]),
            Phi(4, [Incoming(Reg(0), 0), Incoming(Reg(13), 3)]),
            Phi(5, [Incoming(Imm(0), 0), Incoming(Reg(14), 3)])],
           [],
           Br(2)),
     // innerloop: out2 = 6, in2 = 7, j = 8
     Block([Phi(6, [Incoming(Reg(3), 1), Incoming(Reg(9), 2)]),
            Phi(7, [Incoming(Reg(4), 1), Incoming(Reg(10), 2)]),
            Phi(8, [Incoming(Imm(0), 1), Incoming(Reg(11), 2)])],
           [MemCpy(Reg(6), Reg(7), Imm(40)),
            Let(9, Add64(Reg(6), Imm(40))), Let(10, Add64(Reg(7), Imm(1440))), Let(11, Add32(Reg(8), Imm(1))),
            Let(12, Equal(Reg(11), Imm(32)))],
           CondBr(Reg(12), 3, 2)),
     // afterinner
     Block([],
           [Let(13, Add64(Reg(7), Imm(40))), Let(14, Add32(Reg(5), Imm(1))), Let(15, Equal(Reg(14), Reg(1)))],
           CondBr(Reg(15), 4, 1)),
     Block([], [], Ret)]
  }

  predicate Defined(regs: Registers, n: nat) { forall r :: 0 <= r < n ==> r in regs }

  // ----- running a given program, one step at a time -----

  lemma StepLet(p: seq<Block>, s: State, id: nat, pc: nat, dst: nat, e: Expr, c: Conf) returns (c': Conf)
    requires Reaches(p, s, Running(c, id, pc)) && id < |p| && pc < |p[id].instrs|
    requires p[id].instrs[pc] == Let(dst, e) && Computable(c.regs, e)
    ensures Reaches(p, s, Running(c', id, pc + 1))
    ensures c' == Set(c, dst, Value(c.regs, e))
  {
    OneStep(p, Running(c, id, pc));
    c' := Set(c, dst, Value(c.regs, e));
    Chain(p, s, Running(c, id, pc), Running(c', id, pc + 1));
  }

  lemma StepAdd(p: seq<Block>, s: State, id: nat, pc: nat, dst: nat, r: nat, k: nat, c: Conf) returns (c': Conf)
    requires Reaches(p, s, Running(c, id, pc)) && id < |p| && pc < |p[id].instrs|
    requires p[id].instrs[pc] == Let(dst, Add64(Reg(r), Imm(k))) && r in c.regs && k < W
    ensures Reaches(p, s, Running(c', id, pc + 1)) && c' == Set(c, dst, Wrap(c.regs[r] + k))
  {
    hide Reaches;
    c' := StepLet(p, s, id, pc, dst, Add64(Reg(r), Imm(k)), c);
  }

  lemma StepCount(p: seq<Block>, s: State, id: nat, pc: nat, dst: nat, r: nat, c: Conf) returns (c': Conf)
    requires Reaches(p, s, Running(c, id, pc)) && id < |p| && pc < |p[id].instrs|
    requires p[id].instrs[pc] == Let(dst, Add32(Reg(r), Imm(1))) && r in c.regs && 0 <= c.regs[r] < W32 - 1
    ensures Reaches(p, s, Running(c', id, pc + 1)) && c' == Set(c, dst, c.regs[r] + 1)
  {
    hide Reaches;
    c' := StepLet(p, s, id, pc, dst, Add32(Reg(r), Imm(1)), c);
  }

  lemma StepTest(p: seq<Block>, s: State, id: nat, pc: nat, dst: nat, r: nat, o: Operand, c: Conf) returns (c': Conf)
    requires Reaches(p, s, Running(c, id, pc)) && id < |p| && pc < |p[id].instrs|
    requires p[id].instrs[pc] == Let(dst, Equal(Reg(r), o)) && r in c.regs && Def(c.regs, o)
    ensures Reaches(p, s, Running(c', id, pc + 1))
    ensures c' == Set(c, dst, if c.regs[r] == Ev(c.regs, o) then 1 else 0)
  {
    hide Reaches;
    c' := StepLet(p, s, id, pc, dst, Equal(Reg(r), o), c);
  }

  lemma StepMove(p: seq<Block>, s: State, id: nat, pc: nat, to: Operand, from: Operand, n: nat, c: Conf)
    returns (c': Conf)
    requires Reaches(p, s, Running(c, id, pc)) && id < |p| && pc < |p[id].instrs| && n < W
    requires p[id].instrs[pc] == VMove(to, from, n) || p[id].instrs[pc] == MemCpy(to, from, Imm(n))
    requires Def(c.regs, to) && Def(c.regs, from) && Ready(c.mem, Bytes(n, Ev(c.regs, from), Ev(c.regs, to)))
    ensures Reaches(p, s, Running(c', id, pc + 1))
    ensures c' == c.(mem := Copy(c.mem, Bytes(n, Ev(c.regs, from), Ev(c.regs, to))))
  {
    hide Ready, Copy, Bytes, Mapped, Overlap;
    TransferRuns(c, to, from, n, true);
    TransferRuns(c, to, from, n, false);
    OneStep(p, Running(c, id, pc));
    c' := c.(mem := Copy(c.mem, Bytes(n, Ev(c.regs, from), Ev(c.regs, to))));
    Chain(p, s, Running(c, id, pc), Running(c', id, pc + 1));
  }

  /** The block that a terminator goes to. */
  ghost predicate GoesTo(p: seq<Block>, id: nat, c: Conf, target: nat) {
    && id < |p| && target < |p|
    && match p[id].term
       case Br(t) => t == target
       case CondBr(cond, yes, no) => Def(c.regs, cond) && target == if Ev(c.regs, cond) != 0 then yes else no
       case _ => false
  }

  /** Entered from block `from`, the phis of `target` set first, first + 1, ... to os. */
  predicate PhisGive(p: seq<Block>, target: nat, from: nat, first: nat, os: seq<Operand>) {
    && target < |p| && |p[target].phis| == |os|
    && (forall j :: 0 <= j < |os| ==> p[target].phis[j].dst == first + j)
    && (forall j :: 0 <= j < |os| ==>
          HasSource(p[target].phis[j].incoming, from) && Source(p[target].phis[j].incoming, from) == os[j])
  }

  lemma StepJump(p: seq<Block>, s: State, id: nat, c: Conf, target: nat, first: nat, os: seq<Operand>)
    returns (c': Conf)
    requires GoesTo(p, id, c, target) && Reaches(p, s, Running(c, id, |p[id].instrs|))
    requires PhisGive(p, target, id, first, os) && AllDef(c.regs, os)
    ensures Reaches(p, s, Running(c', target, 0))
    ensures c' == c.(regs := SetAll(c.regs, first, os))
  {
    EnterSetsAll(p[target].phis, id, c.regs, first, os);
    OneStep(p, Running(c, id, |p[id].instrs|));
    c' := c.(regs := SetAll(c.regs, first, os));
    Chain(p, s, Running(c, id, |p[id].instrs|), Running(c', target, 0));
  }

  lemma TwoSources(a: Incoming, b: Incoming)
    requires a.from != b.from
    ensures var incoming := [a, b];
      && HasSource(incoming, a.from) && Source(incoming, a.from) == a.value
      && HasSource(incoming, b.from) && Source(incoming, b.from) == b.value
  {
    SecondSource([a, b], b.from, b.value, a);
    assert [a, b][0] == a;
  }

  /** Two-entry phis, entered from either side. */
  lemma TwoWays(p: seq<Block>, target: nat, first: nat, xs: seq<Operand>, ys: seq<Operand>, i: nat, j: nat)
    requires target < |p| && |p[target].phis| == |xs| == |ys| && i != j
    requires forall k :: 0 <= k < |xs| ==>
      p[target].phis[k] == Phi(first + k, [Incoming(xs[k], i), Incoming(ys[k], j)])
    ensures PhisGive(p, target, i, first, xs) && PhisGive(p, target, j, first, ys)
  {
    forall k | 0 <= k < |xs|
      ensures HasSource(p[target].phis[k].incoming, i) && Source(p[target].phis[k].incoming, i) == xs[k]
      ensures HasSource(p[target].phis[k].incoming, j) && Source(p[target].phis[k].incoming, j) == ys[k]
    {
      TwoSources(Incoming(xs[k], i), Incoming(ys[k], j));
    }
  }

  lemma NoPhis(p: seq<Block>, target: nat, from: nat)
    requires target < |p| && p[target].phis == []
    ensures PhisGive(p, target, from, 0, []) && forall regs :: SetAll(regs, 0, []) == regs
  {}

  lemma SelfReach(p: seq<Block>, s: State)
    ensures Reaches(p, s, s)
  {
    assert Run(p, s, 0) == s;
  }

  // ----- the specification -----

  /** A block is 40 consecutive bytes; an item is 32 of them, 1440 bytes apart. */
  function Item(): seq<int> { Rep(Iota(40), 1440, 32) }

  lemma ItemIsVector()
    ensures Map(VEC) == Item() && Extent(VEC) == 44680 && Size(VEC) == 1280 && |Item()| == 1280
  {
    var d := Primitive(DOUBLE);
    assert Map(d) == Iota(8);
    RepIota(8, 5);
    assert Copies(d, 5) == Iota(40);
    RepLength(Iota(40), 1440, 32);
  }

  /** Moves(pack, n blocks) at the data address x and the packed address y. */
  function Blocks(n: int, x: int, y: int): seq<Transfer> { Moves(true, Rep(Iota(40), 1440, n), x, y) }

  lemma NextBlock(mem: Memory, n: int, x: int, y: int)
    requires n >= 1 && Ready(mem, Blocks(n, x, y))
    ensures var x1, y1 := Wrap(x + 1440), Wrap(y + 40);
      && Blocks(n, x, y) == Bytes(40, x, y) + Blocks(n - 1, x1, y1)
      && Ready(mem, Bytes(40, x, y)) && Ready(Copy(mem, Bytes(40, x, y)), Blocks(n - 1, x1, y1))
      && Copy(mem, Blocks(n, x, y)) == Copy(Copy(mem, Bytes(40, x, y)), Blocks(n - 1, x1, y1))
  {
    MovesRep(true, Iota(40), 1440, n, x, y);
    ReadyParts(mem, Bytes(40, x, y), Blocks(n - 1, Wrap(x + 1440), Wrap(y + 40)));
    CopyConcat(mem, Bytes(40, x, y), Blocks(n - 1, Wrap(x + 1440), Wrap(y + 40)));
  }

  lemma NoBlocks(mem: Memory, x: int, y: int)
    ensures Copy(mem, Blocks(0, x, y)) == mem
  {}

  function Items(n: int, x: int, y: int): seq<Transfer> { Moves(true, Rep(Item(), 44680, n), x, y) }

  lemma NextItemOf(mem: Memory, n: int, x: int, y: int)
    requires n >= 1 && Ready(mem, Items(n, x, y))
    ensures var x1, y1 := Wrap(x + 44680), Wrap(y + 1280);
      && Ready(mem, Blocks(32, x, y)) && Ready(Copy(mem, Blocks(32, x, y)), Items(n - 1, x1, y1))
      && Copy(mem, Items(n, x, y)) == Copy(Copy(mem, Blocks(32, x, y)), Items(n - 1, x1, y1))
  {
    ItemIsVector();
    MovesRep(true, Item(), 44680, n, x, y);
    ReadyParts(mem, Blocks(32, x, y), Items(n - 1, Wrap(x + 44680), Wrap(y + 1280)));
    CopyConcat(mem, Blocks(32, x, y), Items(n - 1, Wrap(x + 44680), Wrap(y + 1280)));
  }

  lemma NoItems(mem: Memory, x: int, y: int)
    ensures Copy(mem, Items(0, x, y)) == mem
  {}

  // ----- the optimised kernel -----

  /** The registers of the inner loop: 6 is the limit, 7 and 8 the two pointers. */
  ghost predicate AtFour(c: Conf, m: nat, x: int, y: int) {
    && Defined(c.regs, 9) && c.regs[7] == y && c.regs[8] == x && 0 <= x < W && 0 <= y < W
    && m >= 1 && 160 * m <= 1280 && c.regs[6] == Wrap(y + 160 * m)
    && Ready(c.mem, Blocks(4 * m, x, y))
  }

  lemma OptimisedEdges()
    ensures var p := Optimised();
      && |p| == 5 && |p[1].instrs| == 1 && |p[2].instrs| == 13 && |p[3].instrs| == 3
      && p[0] == Block([], [], Br(1)) && p[1].term == Br(2) && p[2].term == CondBr(Reg(17), 3, 2)
      && p[3].term == CondBr(Reg(20), 4, 1) && p[3].phis == [] && p[4] == Block([], [], Ret)
  {}

  lemma OptimisedOuterInstrs()
    ensures var p := Optimised();
      && p[1].instrs[0] == Let(6, Add64(Reg(3), Imm(1280)))
      && p[3].instrs[0] == Let(18, Add64(Reg(4), Imm(44680))) && p[3].instrs[1] == Let(19, Add32(Reg(5), Imm(1)))
      && p[3].instrs[2] == Let(20, Equal(Reg(19), Reg(1)))
  {}

  lemma OptimisedAddresses()
    ensures var code := Optimised()[2].instrs;
      && code[0] == Let(9, Add64(Reg(7), Imm(40))) && code[1] == Let(10, Add64(Reg(8), Imm(1440)))
      && code[2] == Let(11, Add64(Reg(9), Imm(40))) && code[3] == Let(12, Add64(Reg(10), Imm(1440)))
      && code[4] == Let(13, Add64(Reg(11), Imm(40))) && code[5] == Let(14, Add64(Reg(12), Imm(1440)))
      && code[6] == Let(15, Add64(Reg(13), Imm(40))) && code[7] == Let(16, Add64(Reg(14), Imm(1440)))
  {}

  lemma OptimisedMoves()
    ensures var code := Optimised()[2].instrs;
      && code[8] == VMove(Reg(7), Reg(8), 40) && code[9] == VMove(Reg(9), Reg(10), 40)
      && code[10] == VMove(Reg(11), Reg(12), 40) && code[11] == VMove(Reg(13), Reg(14), 40)
      && code[12] == Let(17, Equal(Reg(15), Reg(6)))
  {}

  lemma OptimisedPhis()
    ensures var p := Optimised();
      && PhisGive(p, 1, 0, 3, [Reg(2), Reg(0), Imm(0)]) && PhisGive(p, 1, 3, 3, [Reg(6), Reg(18), Reg(19)])
      && PhisGive(p, 2, 1, 7, [Reg(3), Reg(4)]) && PhisGive(p, 2, 2, 7, [Reg(15), Reg(16)])
  {
    hide PhisGive;
    var p := Optimised();
    TwoWays(p, 1, 3, [Reg(2), Reg(0), Imm(0)], [Reg(6), Reg(18), Reg(19)], 0, 3);
    TwoWays(p, 2, 7, [Reg(3), Reg(4)], [Reg(15), Reg(16)], 1, 2);
  }

  lemma ReferenceCode()
    ensures var p := Reference();
      && |p| == 5 && p[0] == Block([], [], Br(1)) && p[1].instrs == [] && p[1].term == Br(2)
      && |p[2].instrs| == 5 && |p[3].instrs| == 3
      && p[2].instrs[0] == MemCpy(Reg(6), Reg(7), Imm(40))
      && p[2].instrs[1] == Let(9, Add64(Reg(6), Imm(40))) && p[2].instrs[2] == Let(10, Add64(Reg(7), Imm(1440)))
      && p[2].instrs[3] == Let(11, Add32(Reg(8), Imm(1))) && p[2].instrs[4] == Let(12, Equal(Reg(11), Imm(32)))
      && p[2].term == CondBr(Reg(12), 3, 2)
      && p[3].instrs[0] == Let(13, Add64(Reg(7), Imm(40))) && p[3].instrs[1] == Let(14, Add32(Reg(5), Imm(1)))
      && p[3].instrs[2] == Let(15, Equal(Reg(14), Reg(1))) && p[3].term == CondBr(Reg(15), 4, 1)
      && p[3].phis == [] && p[4] == Block([], [], Ret)
    ensures var p := Reference();
      && PhisGive(p, 1, 0, 3, [Reg(2), Reg(0), Imm(0)]) && PhisGive(p, 1, 3, 3, [Reg(9), Reg(13), Reg(14)])
      && PhisGive(p, 2, 1, 6, [Reg(3), Reg(4), Imm(0)]) && PhisGive(p, 2, 2, 6, [Reg(9), Reg(10), Reg(11)])
  {
    var p := Reference();
    TwoWays(p, 1, 3, [Reg(2), Reg(0), Imm(0)], [Reg(9), Reg(13), Reg(14)], 0, 3);
    TwoWays(p, 2, 6, [Reg(3), Reg(4), Imm(0)], [Reg(9), Reg(10), Reg(11)], 1, 2);
  }

  /** Registers r and r + 1 hold the packed and the data address. */
  ghost predicate Pair(regs: Registers, r: nat, y: int, x: int) {
    r in regs && r + 1 in regs && regs[r] == y && regs[r + 1] == x
  }

  /** The next pair of addresses, k blocks from (y, x). */
  lemma Advance(s: State, pc: nat, r: nat, k: nat, y: int, x: int, c: Conf) returns (c': Conf)
    requires Reaches(Optimised(), s, Running(c, 2, pc)) && pc + 1 < 13
    requires Optimised()[2].instrs[pc] == Let(r + 2, Add64(Reg(r), Imm(40)))
    requires Optimised()[2].instrs[pc + 1] == Let(r + 3, Add64(Reg(r + 1), Imm(1440)))
    requires Pair(c.regs, r, Wrap(y + 40 * k), Wrap(x + 1440 * k))
    ensures Reaches(Optimised(), s, Running(c', 2, pc + 2))
    ensures Pair(c'.regs, r + 2, Wrap(y + 40 * (k + 1)), Wrap(x + 1440 * (k + 1)))
    ensures Keeps(c.regs, c'.regs, r + 2) && c'.mem == c.mem
  {
    hide Reaches, Wrap, Value, Optimised;
    OptimisedEdges();
    var c1 := StepAdd(Optimised(), s, 2, pc, r + 2, r, 40, c);
    c' := StepAdd(Optimised(), s, 2, pc + 1, r + 3, r + 1, 1440, c1);
    WrapWrap(y + 40 * k, 40);
    WrapWrap(x + 1440 * k, 1440);
  }

  /** The addresses of the four blocks and of the next four. */
  lemma FourAddresses(c: Conf, x: int, y: int) returns (c': Conf)
    requires Pair(c.regs, 7, y, x) && 0 <= x < W && 0 <= y < W
    ensures Reaches(Optimised(), Running(c, 2, 0), Running(c', 2, 8)) && c'.mem == c.mem && Keeps(c.regs, c'.regs, 9)
    ensures Pair(c'.regs, 7, y, x) && Pair(c'.regs, 9, Wrap(y + 40), Wrap(x + 1440))
    ensures Pair(c'.regs, 11, Wrap(y + 80), Wrap(x + 2880)) && Pair(c'.regs, 13, Wrap(y + 120), Wrap(x + 4320))
    ensures Pair(c'.regs, 15, Wrap(y + 160), Wrap(x + 5760))
  {
    hide Reaches, Optimised, Wrap;
    var s := Running(c, 2, 0);
    OptimisedAddresses(); OptimisedEdges();
    SelfReach(Optimised(), s);
    InRange(x); InRange(y);
    var c1 := Advance(s, 0, 7, 0, y, x, c);
    var c2 := Advance(s, 2, 9, 1, y, x, c1);
    var c3 := Advance(s, 4, 11, 2, y, x, c2);
    c' := Advance(s, 6, 13, 3, y, x, c3);
  }

  lemma InRange(x: int)
    requires 0 <= x < W
    ensures Wrap(x) == x
  {}

  lemma FourMoves(m: nat, x: int, y: int, c: Conf, c0: Conf) returns (c': Conf)
    requires Reaches(Optimised(), Running(c, 2, 0), Running(c0, 2, 8)) && m >= 1
    requires Pair(c0.regs, 7, y, x) && Pair(c0.regs, 9, Wrap(y + 40), Wrap(x + 1440))
    requires Pair(c0.regs, 11, Wrap(y + 80), Wrap(x + 2880)) && Pair(c0.regs, 13, Wrap(y + 120), Wrap(x + 4320))
    requires Ready(c0.mem, Blocks(4 * m, x, y))
    ensures Reaches(Optimised(), Running(c, 2, 0), Running(c', 2, 12)) && c'.regs == c0.regs
    ensures Ready(c'.mem, Blocks(4 * (m - 1), Wrap(x + 5760), Wrap(y + 160)))
    ensures Copy(c0.mem, Blocks(4 * m, x, y)) == Copy(c'.mem, Blocks(4 * (m - 1), Wrap(x + 5760), Wrap(y + 160)))
  {
    hide Reaches, Ready, Copy, Bytes, Blocks, Wrap, Optimised;
    var p, s := Optimised(), Running(c, 2, 0);
    OptimisedMoves(); OptimisedEdges();
    WrapWrap(y + 40, 40); WrapWrap(y + 80, 40); WrapWrap(y + 120, 40);
    WrapWrap(x + 1440, 1440); WrapWrap(x + 2880, 1440); WrapWrap(x + 4320, 1440);
    NextBlock(c0.mem, 4 * m, x, y);
    var c1 := StepMove(p, s, 2, 8, Reg(7), Reg(8), 40, c0);
    NextBlock(c1.mem, 4 * m - 1, Wrap(x + 1440), Wrap(y + 40));
    var c2 := StepMove(p, s, 2, 9, Reg(9), Reg(10), 40, c1);
    NextBlock(c2.mem, 4 * m - 2, Wrap(x + 2880), Wrap(y + 80));
    var c3 := StepMove(p, s, 2, 10, Reg(11), Reg(12), 40, c2);
    NextBlock(c3.mem, 4 * m - 3, Wrap(x + 4320), Wrap(y + 120));
    c' := StepMove(p, s, 2, 11, Reg(13), Reg(14), 40, c3);
  }

  /** With m times four blocks to go, the inner loop does them all and leaves. */
  lemma {:induction false} OptimisedInner(m: nat, x: int, y: int, c: Conf) returns (c': Conf)
    requires AtFour(c, m, x, y)
    ensures Reaches(Optimised(), Running(c, 2, 0), Running(c', 3, 0))
    ensures c'.mem == Copy(c.mem, Blocks(4 * m, x, y)) && Keeps(c.regs, c'.regs, 7)
    decreases m
  {
    hide Reaches, Ready, Copy, Blocks, Optimised, PhisGive, SetAll;
    var p, s := Optimised(), Running(c, 2, 0);
    OptimisedMoves(); OptimisedEdges(); OptimisedPhis();
    var c1 := FourAddresses(c, x, y);
    var c2 := FourMoves(m, x, y, c, c1);
    var c3 := StepTest(p, s, 2, 12, 17, 15, Reg(6), c2);
    if m == 1 {
      NoPhis(p, 3, 2);
      c' := StepJump(p, s, 2, c3, 3, 0, []);
      NoBlocks(c2.mem, Wrap(x + 5760), Wrap(y + 160));
    } else {
      if Wrap(y + 160) == Wrap(y + 160 * m) { WrapInjective(y, 160, 160 * m); }
      SetTwo(c3.regs, 7, Reg(15), Reg(16));
      var c4 := StepJump(p, s, 2, c3, 2, 7, [Reg(15), Reg(16)]);
      WrapWrap(y + 160, 160 * (m - 1));
      c' := OptimisedInner(m - 1, Wrap(x + 5760), Wrap(y + 160), c4);
      Chain(p, s, Running(c4, 2, 0), Running(c', 3, 0));
    }
  }

  /** At the outer loop with m items to go. */
  ghost predicate AtItem(c: Conf, n: int, m: nat, x: int, y: int) {
    && Defined(c.regs, 6) && c.regs[3] == y && c.regs[4] == x && 0 <= x < W && 0 <= y < W
    && c.regs[1] == n && 1 <= m <= n < W32 && c.regs[5] == n - m
    && Ready(c.mem, Items(m, x, y))
  }

  /** One item, up to the exit test of the outer loop. */
  lemma OptimisedItem(n: int, m: nat, x: int, y: int, c: Conf) returns (c': Conf)
    requires AtItem(c, n, m, x, y)
    ensures Reaches(Optimised(), Running(c, 1, 0), Running(c', 3, 3))
    ensures c'.mem == Copy(c.mem, Blocks(32, x, y)) && Keeps(c.regs, c'.regs, 6)
    ensures {6, 18, 19, 20} <= c'.regs.Keys && c'.regs[6] == Wrap(y + 1280) && c'.regs[18] == Wrap(x + 44680)
    ensures c'.regs[19] == n - m + 1 && c'.regs[20] == (if m == 1 then 1 else 0)
  {
    hide Reaches, Ready, Copy, Blocks, Items, Wrap, Value, Optimised, PhisGive, SetAll;
    var p, s := Optimised(), Running(c, 1, 0);
    OptimisedOuterInstrs(); OptimisedEdges(); OptimisedPhis();
    SelfReach(p, s);
    NextItemOf(c.mem, m, x, y);
    var c1 := StepAdd(p, s, 1, 0, 6, 3, 1280, c);
    SetTwo(c1.regs, 7, Reg(3), Reg(4));
    var c2 := StepJump(p, s, 1, c1, 2, 7, [Reg(3), Reg(4)]);
    var c3 := OptimisedInner(8, x, y, c2);
    Chain(p, s, Running(c2, 2, 0), Running(c3, 3, 0));
    var c4 := StepAdd(p, s, 3, 0, 18, 4, 44680, c3);
    var c5 := StepCount(p, s, 3, 1, 19, 5, c4);
    c' := StepTest(p, s, 3, 2, 20, 19, Reg(1), c5);
  }

  lemma {:induction false} OptimisedOuter(n: int, m: nat, x: int, y: int, c: Conf) returns (mem': Memory)
    requires AtItem(c, n, m, x, y)
    ensures Reaches(Optimised(), Running(c, 1, 0), Returned(mem'))
    ensures mem' == Copy(c.mem, Items(m, x, y))
    decreases m
  {
    hide Reaches, Ready, Copy, Blocks, Items, Optimised, PhisGive, SetAll;
    var p, s := Optimised(), Running(c, 1, 0);
    OptimisedEdges(); OptimisedPhis();
    NextItemOf(c.mem, m, x, y);
    var c1 := OptimisedItem(n, m, x, y, c);
    if m == 1 {
      mem' := Finish(p, s, c1);
      NoItems(c1.mem, Wrap(x + 44680), Wrap(y + 1280));
    } else {
      SetThree(c1.regs, 3, Reg(6), Reg(18), Reg(19));
      var c2 := StepJump(p, s, 3, c1, 1, 3, [Reg(6), Reg(18), Reg(19)]);
      mem' := OptimisedOuter(n, m - 1, Wrap(x + 44680), Wrap(y + 1280), c2);
      Chain(p, s, Running(c2, 1, 0), Returned(mem'));
    }
  }

  /** Both kernels leave their outer loop for a block that returns. */
  lemma Finish(p: seq<Block>, s: State, c: Conf) returns (mem': Memory)
    requires |p| == 5 && Reaches(p, s, Running(c, 3, |p[3].instrs|)) && GoesTo(p, 3, c, 4) && p[4] == Block([], [], Ret)
    ensures Reaches(p, s, Returned(mem')) && mem' == c.mem
  {
    hide Reaches;
    NoPhis(p, 4, 3);
    var c1 := StepJump(p, s, 3, c, 4, 0, []);
    OneStep(p, Running(c1, 4, 0));
    mem' := c1.mem;
    Chain(p, s, Running(c1, 4, 0), Returned(mem'));
  }

  // ----- the reference kernel -----

  ghost predicate AtBlock(c: Conf, m: nat, x: int, y: int) {
    && Defined(c.regs, 9) && c.regs[6] == y && c.regs[7] == x && 0 <= x < W && 0 <= y < W
    && 1 <= m <= 32 && c.regs[8] == 32 - m && Ready(c.mem, Blocks(m, x, y))
  }

  /** One block, up to the exit test of the inner loop. */
  lemma ReferenceBlock(m: nat, x: int, y: int, c: Conf) returns (c': Conf)
    requires AtBlock(c, m, x, y)
    ensures Reaches(Reference(), Running(c, 2, 0), Running(c', 2, 5))
    ensures c'.mem == Copy(c.mem, Bytes(40, x, y)) && Keeps(c.regs, c'.regs, 9)
    ensures Pair(c'.regs, 9, Wrap(y + 40), Wrap(x + 1440)) && Pair(c'.regs, 11, 32 - m + 1, if m == 1 then 1 else 0)
  {
    hide Reaches, Ready, Copy, Blocks, Bytes, Value, Reference, PhisGive, SetAll, Wrap;
    var p, s := Reference(), Running(c, 2, 0);
    ReferenceCode();
    SelfReach(p, s);
    NextBlock(c.mem, m, x, y);
    var c1 := StepMove(p, s, 2, 0, Reg(6), Reg(7), 40, c);
    var c2 := StepAdd(p, s, 2, 1, 9, 6, 40, c1);
    var c3 := StepAdd(p, s, 2, 2, 10, 7, 1440, c2);
    var c4 := StepCount(p, s, 2, 3, 11, 8, c3);
    InRange(32);
    c' := StepTest(p, s, 2, 4, 12, 11, Imm(32), c4);
  }

  lemma {:induction false} ReferenceInner(m: nat, x: int, y: int, c: Conf) returns (c': Conf)
    requires AtBlock(c, m, x, y)
    ensures Reaches(Reference(), Running(c, 2, 0), Running(c', 3, 0))
    ensures c'.mem == Copy(c.mem, Blocks(m, x, y)) && Keeps(c.regs, c'.regs, 6)
    ensures {7, 9} <= c'.regs.Keys && c'.regs[9] == Wrap(y + 40 * m) && c'.regs[7] == Wrap(x + 1440 * (m - 1))
    decreases m
  {
    hide Reaches, Ready, Copy, Blocks, Bytes, Value, Reference, PhisGive, SetAll, Wrap;
    var p, s := Reference(), Running(c, 2, 0);
    ReferenceCode();
    NextBlock(c.mem, m, x, y);
    var x1, y1 := Wrap(x + 1440), Wrap(y + 40);
    var c5 := ReferenceBlock(m, x, y, c);
    if m == 1 {
      NoPhis(p, 3, 2);
      c' := StepJump(p, s, 2, c5, 3, 0, []);
      NoBlocks(c5.mem, x1, y1);
      InRange(x);
    } else {
      SetThree(c5.regs, 6, Reg(9), Reg(10), Reg(11));
      var c6 := StepJump(p, s, 2, c5, 2, 6, [Reg(9), Reg(10), Reg(11)]);
      c' := ReferenceInner(m - 1, x1, y1, c6);
      Chain(p, s, Running(c6, 2, 0), Running(c', 3, 0));
      WrapWrap(y + 40, 40 * (m - 1));
      WrapWrap(x + 1440, 1440 * (m - 2));
    }
  }

  lemma ReferenceItem(n: int, m: nat, x: int, y: int, c: Conf) returns (c': Conf)
    requires AtItem(c, n, m, x, y)
    ensures Reaches(Reference(), Running(c, 1, 0), Running(c', 3, 3))
    ensures c'.mem == Copy(c.mem, Blocks(32, x, y)) && Keeps(c.regs, c'.regs, 6)
    ensures {9, 13, 14, 15} <= c'.regs.Keys && c'.regs[9] == Wrap(y + 1280) && c'.regs[13] == Wrap(x + 44680)
    ensures c'.regs[14] == n - m + 1 && c'.regs[15] == (if m == 1 then 1 else 0)
  {
    hide Reaches, Ready, Copy, Blocks, Items, Wrap, Value, Reference, PhisGive, SetAll;
    var p, s := Reference(), Running(c, 1, 0);
    ReferenceCode();
    SelfReach(p, s);
    NextItemOf(c.mem, m, x, y);
    SetThree(c.regs, 6, Reg(3), Reg(4), Imm(0));
    InRange(0);
    var c2 := StepJump(p, s, 1, c, 2, 6, [Reg(3), Reg(4), Imm(0)]);
    var c3 := ReferenceInner(32, x, y, c2);
    Chain(p, s, Running(c2, 2, 0), Running(c3, 3, 0));
    var c4 := StepAdd(p, s, 3, 0, 13, 7, 40, c3);
    WrapWrap(x + 44640, 40);
    var c5 := StepCount(p, s, 3, 1, 14, 5, c4);
    c' := StepTest(p, s, 3, 2, 15, 14, Reg(1), c5);
  }

  lemma {:induction false} ReferenceOuter(n: int, m: nat, x: int, y: int, c: Conf) returns (mem': Memory)
    requires AtItem(c, n, m, x, y)
    ensures Reaches(Reference(), Running(c, 1, 0), Returned(mem'))
    ensures mem' == Copy(c.mem, Items(m, x, y))
    decreases m
  {
    hide Reaches, Ready, Copy, Blocks, Items, Reference, PhisGive, SetAll;
    var p, s := Reference(), Running(c, 1, 0);
    ReferenceCode();
    NextItemOf(c.mem, m, x, y);
    var c1 := ReferenceItem(n, m, x, y, c);
    if m == 1 {
      mem' := Finish(p, s, c1);
      NoItems(c1.mem, Wrap(x + 44680), Wrap(y + 1280));
    } else {
      SetThree(c1.regs, 3, Reg(9), Reg(13), Reg(14));
      var c2 := StepJump(p, s, 3, c1, 1, 3, [Reg(9), Reg(13), Reg(14)]);
      mem' := ReferenceOuter(n, m - 1, Wrap(x + 44680), Wrap(y + 1280), c2);
      Chain(p, s, Running(c2, 1, 0), Returned(mem'));
    }
  }

  // ----- whole calls -----

  /** Both kernels enter their outer loop in the same state. */
  lemma EnterKernel(p: seq<Block>, mem: Memory, inbuf: int, n: int, outbuf: int) returns (c: Conf)
    requires |p| == 5 && p[0] == Block([], [], Br(1)) && PhisGive(p, 1, 0, 3, [Reg(2), Reg(0), Imm(0)])
    requires Callable(VEC, true, mem, inbuf, n, outbuf)
    ensures Reaches(p, Call(mem, inbuf, n, outbuf), Running(c, 1, 0)) && c.mem == mem
    ensures AtItem(c, n, n, inbuf, outbuf) && Items(n, inbuf, outbuf) == Moves(true, Copies(VEC, n), inbuf, outbuf)
  {
    hide Reaches, Ready, Moves, Rep, PhisGive, SetAll;
    ItemIsVector();
    var s := Call(mem, inbuf, n, outbuf);
    SelfReach(p, s);
    SetThree(s.conf.regs, 3, Reg(2), Reg(0), Imm(0));
    c := StepJump(p, s, 0, s.conf, 1, 3, [Reg(2), Reg(0), Imm(0)]);
  }

  lemma OptimisedPacks(mem: Memory, inbuf: int, n: int, outbuf: int)
    requires Callable(VEC, true, mem, inbuf, n, outbuf)
    ensures Reaches(Optimised(), Call(mem, inbuf, n, outbuf),
                    Returned(Copy(mem, Moves(true, Copies(VEC, n), inbuf, outbuf))))
  {
    hide *;
    OptimisedEdges(); OptimisedPhis();
    var c := EnterKernel(Optimised(), mem, inbuf, n, outbuf);
    CallableCount(mem, inbuf, n, outbuf);
    var mem' := OptimisedOuter(n, n, inbuf, outbuf, c);
    Chain(Optimised(), Call(mem, inbuf, n, outbuf), Running(c, 1, 0), Returned(mem'));
  }

  lemma CallableCount(mem: Memory, inbuf: int, n: int, outbuf: int)
    requires Callable(VEC, true, mem, inbuf, n, outbuf)
    ensures n >= 1
  {}

  lemma ReferencePacks(mem: Memory, inbuf: int, n: int, outbuf: int)
    requires Callable(VEC, true, mem, inbuf, n, outbuf)
    ensures Reaches(Reference(), Call(mem, inbuf, n, outbuf),
                    Returned(Copy(mem, Moves(true, Copies(VEC, n), inbuf, outbuf))))
  {
    hide *;
    ReferenceCode();
    var c := EnterKernel(Reference(), mem, inbuf, n, outbuf);
    CallableCount(mem, inbuf, n, outbuf);
    var mem' := ReferenceOuter(n, n, inbuf, outbuf, c);
    Chain(Reference(), Call(mem, inbuf, n, outbuf), Running(c, 1, 0), Returned(mem'));
  }

  /** However they stop, the two kernels and the function the compiler emits for the type leave the
      same memory. */
  lemma KernelsAgree(mem: Memory, inbuf: int, n: int, outbuf: int, s: State, t: State, u: State)
    requires Callable(VEC, true, mem, inbuf, n, outbuf)
    requires Reaches(Optimised(), Call(mem, inbuf, n, outbuf), s) && !s.Running?
    requires Reaches(Reference(), Call(mem, inbuf, n, outbuf), t) && !t.Running?
    requires Reaches(Compile(VEC, true), Call(mem, inbuf, n, outbuf), u) && !u.Running?
    ensures s == t == u == Returned(Copy(mem, Moves(true, MpiCopies(VEC, n), inbuf, outbuf)))
  {
    hide *;
    var call, done := Call(mem, inbuf, n, outbuf), Returned(Copy(mem, Moves(true, Copies(VEC, n), inbuf, outbuf)));
    OptimisedPacks(mem, inbuf, n, outbuf);
    ReferencePacks(mem, inbuf, n, outbuf);
    VectorIsCompilable();
    VectorIsMpi(n);
    CallableCount(mem, inbuf, n, outbuf);
    CompiledFunctionPerforms(VEC, true, mem, inbuf, n, outbuf);
    FinalStateUnique(Optimised(), call, s, done);
    FinalStateUnique(Reference(), call, t, done);
    FinalStateUnique(Compile(VEC, true), call, u, done);
  }

  lemma VectorIsCompilable()
    ensures Compilable(VEC, true) && Compilable(VEC, false)
  {
    hide Map, Copies, Fits, Positive, Good;
    assert Compress(VEC) == VEC;
    ItemIsVector();
    VectorIsPositive();
    VectorFits();
    VectorIsGood();
  }

  lemma VectorIsMpi(n: int)
    ensures n >= 1 ==> Copies(VEC, n) == MpiCopies(VEC, n)
  {
    hide MpiMet, Copies, MpiCopies;
    VectorIsPositive();
    UnindexedIsMet(VEC, n);
    if n >= 1 { MpiMetIsRight(VEC, n); }
  }

  lemma VectorIsPositive()
    ensures Positive(VEC)
  {}

  lemma VectorFits()
    requires Extent(VEC) == 44680 && Size(VEC) == 1280
    ensures Fits(VEC)
  {
    var d := Primitive(DOUBLE);
    assert Lb(d) == 0 && Ub(d) == 8 && Size(d) == 8 && Extent(d) == 8 && Fits(d);
    assert Lb(VEC) == 0 && Ub(VEC) == 44680;
  }

  lemma VectorIsGood()
    ensures Good(VEC, true) && Good(VEC, false)
  {}

  // ----- which bytes these are -----

  lemma BlockBytes(i: int, b: int)
    requires 0 <= i < 32 && 0 <= b < 40
    ensures |Map(VEC)| == 1280 && Map(VEC)[40 * i + b] == 1440 * i + b
  {
    hide Rep;
    var d := Primitive(DOUBLE);
    RepIota(8, 5);
    assert Map(d) == Iota(8) && Copies(d, 5) == Rep(Iota(8), 8, 5) == Iota(40);
    RepAt(Iota(40), 1440, 32, i, b);
    RepLength(Iota(40), 1440, 32);
  }

  /** Byte b of block i of item q is taken from 44680 q + 1440 i + b and goes to 1280 q + 40 i + b. */
  lemma KernelBytes(n: int, q: int, i: int, b: int)
    requires 0 <= q < n && 0 <= i < 32 && 0 <= b < 40
    ensures 0 <= 1280 * q + (40 * i + b) < |Copies(VEC, n)| == 1280 * n
    ensures Copies(VEC, n)[1280 * q + (40 * i + b)] == 44680 * q + 1440 * i + b
  {
    hide Rep, Map;
    BlockBytes(i, b);
    RepAt(Map(VEC), 44680, n, q, 40 * i + b);
    RepLength(Map(VEC), 44680, n);
    assert Extent(VEC) == 44680;
  }
}
