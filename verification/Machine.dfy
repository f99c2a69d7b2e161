/** The fragment of LLVM IR the code generators emit, and what running it means.

    A program is a list of basic blocks with phi nodes.  Registers hold 64-bit words (a pointer is
    its address, an i32 its unsigned value), memory maps addresses to bytes.  A run gets stuck on an
    undefined register, an address outside memory, an overlapping memcpy, a phi without an entry for
    the block it is reached from, and on a block without terminator; so a run that returns has done
    none of these. */
module Machine {
  const W: int := 0x1_0000_0000_0000_0000
  const W32: int := 0x1_0000_0000

  type Byte = b: int | 0 <= b < 256
  type Memory = map<int, Byte>
  type Registers = map<nat, int>

  datatype Operand = Imm(value: int) | Reg(id: nat)

  datatype Expr =
    | Add64(a: Operand, b: Operand)
    | Add32(a: Operand, b: Operand)
    | Sub32(a: Operand, b: Operand)
    | Mul64(a: Operand, b: Operand)
    | ZExt(a: Operand)
    | Equal(a: Operand, b: Operand)
    | Element(table: seq<int>, a: Operand)

  datatype Instr =
    | Let(dst: nat, e: Expr)
    | MemCpy(to: Operand, from: Operand, len: Operand)
    | VMove(to: Operand, from: Operand, bytes: nat)

  datatype Incoming = Incoming(value: Operand, from: nat)
  datatype Phi = Phi(dst: nat, incoming: seq<Incoming>)
  datatype Terminator = Open | Br(target: nat) | CondBr(cond: Operand, yes: nat, no: nat) | Ret
  datatype Block = Block(phis: seq<Phi>, instrs: seq<Instr>, term: Terminator)

  datatype Conf = Conf(regs: Registers, mem: Memory)
  datatype State = Running(conf: Conf, block: nat, pc: nat) | Returned(mem: Memory) | Stuck

  function Wrap(x: int): (w: int)
    ensures 0 <= w < W
  {
    x % W
  }

  function Wrap32(x: int): (w: int)
    ensures 0 <= w < W32
  {
    x % W32
  }

  // ----- operands and expressions -----

  predicate Def(regs: Registers, o: Operand) { o.Reg? ==> o.id in regs }

  function Ev(regs: Registers, o: Operand): int
    requires Def(regs, o)
  {
    match o
    case Imm(v) => Wrap(v)
    case Reg(r) => regs[r]
  }

  predicate Computable(regs: Registers, e: Expr) {
    match e
    case ZExt(a) => Def(regs, a)
    case Element(table, a) => Def(regs, a) && 0 <= Ev(regs, a) < |table|
    case _ => Def(regs, e.a) && Def(regs, e.b)
  }

  function Value(regs: Registers, e: Expr): int
    requires Computable(regs, e)
  {
    match e
    case Add64(a, b) => Wrap(Ev(regs, a) + Ev(regs, b))
    case Add32(a, b) => Wrap32(Ev(regs, a) + Ev(regs, b))
    case Sub32(a, b) => Wrap32(Ev(regs, a) - Ev(regs, b))
    case Mul64(a, b) => Wrap(Ev(regs, a) * Ev(regs, b))
    case ZExt(a) => Wrap32(Ev(regs, a))
    case Equal(a, b) => if Ev(regs, a) == Ev(regs, b) then 1 else 0
    case Element(table, a) => Wrap32(table[Ev(regs, a)])
  }

  // ----- memory -----

  /** Addresses wrap around. */
  function Addr(at: int, k: int): int { Wrap(at + k) }

  ghost predicate Mapped(mem: Memory, at: int, n: int) {
    forall k :: 0 <= k < n ==> Addr(at, k) in mem
  }

  ghost predicate Overlap(d: int, s: int, n: int) {
    exists j, k :: 0 <= j < n && 0 <= k < n && Addr(d, j) == Addr(s, k)
  }

  ghost function Load(mem: Memory, at: int, n: nat): seq<Byte>
    requires Mapped(mem, at, n)
  {
    seq(n, k requires 0 <= k < n => mem[Addr(at, k)])
  }

  ghost function Store(mem: Memory, at: int, bytes: seq<Byte>): Memory
    decreases |bytes|
  {
    if bytes == [] then mem else Store(mem[Addr(at, 0) := bytes[0]], at + 1, bytes[1..])
  }

  // ----- steps -----

  ghost function ExecTransfer(c: Conf, to: Operand, from: Operand, n: int, mayOverlap: bool): (bool, Conf) {
    if Def(c.regs, to) && Def(c.regs, from) && n >= 0
      && Mapped(c.mem, Ev(c.regs, to), n) && Mapped(c.mem, Ev(c.regs, from), n)
      && (mayOverlap || !Overlap(Ev(c.regs, to), Ev(c.regs, from), n))
    then (true, c.(mem := Store(c.mem, Ev(c.regs, to), Load(c.mem, Ev(c.regs, from), n))))
    else (false, c)
  }

  /** Executes one instruction; the flag is false when the run gets stuck on it. */
  ghost function Exec(i: Instr, c: Conf): (bool, Conf) {
    match i
    case Let(dst, e) =>
      if Computable(c.regs, e) then (true, c.(regs := c.regs[dst := Value(c.regs, e)])) else (false, c)
    case MemCpy(to, from, len) =>
      if Def(c.regs, len) then ExecTransfer(c, to, from, Ev(c.regs, len), false) else (false, c)
    case VMove(to, from, bytes) => ExecTransfer(c, to, from, bytes, true)
  }

  predicate HasSource(incoming: seq<Incoming>, from: nat) {
    exists e <- incoming :: e.from == from
  }

  /** The value a phi takes when its block is entered from `from`. */
  function Source(incoming: seq<Incoming>, from: nat): Operand
    requires HasSource(incoming, from)
  {
    if incoming[0].from == from then incoming[0].value
    else
      assert HasSource(incoming[1..], from);
      Source(incoming[1..], from)
  }

  predicate CanEnter(phis: seq<Phi>, from: nat, regs: Registers) {
    forall j :: 0 <= j < |phis| ==>
      HasSource(phis[j].incoming, from) && Def(regs, Source(phis[j].incoming, from))
  }

  /** All phis read the registers as they were before the jump. */
  function Enter(phis: seq<Phi>, from: nat, regs: Registers): Registers
    requires CanEnter(phis, from, regs)
  {
    if phis == [] then regs
    else
      var last := phis[|phis| - 1];
      Enter(phis[..|phis| - 1], from, regs)[last.dst := Ev(regs, Source(last.incoming, from))]
  }

  ghost function Jump(p: seq<Block>, c: Conf, from: nat, target: nat): State {
    if target < |p| && CanEnter(p[target].phis, from, c.regs)
    then Running(c.(regs := Enter(p[target].phis, from, c.regs)), target, 0)
    else Stuck
  }

  ghost function Step(p: seq<Block>, s: State): State {
    if !s.Running? then s
    else if s.block >= |p| then Stuck
    else
      var block := p[s.block];
      if s.pc < |block.instrs| then
        var (ok, c) := Exec(block.instrs[s.pc], s.conf);
        if ok then Running(c, s.block, s.pc + 1) else Stuck
      else
        match block.term
        case Open => Stuck
        case Ret => Returned(s.conf.mem)
        case Br(target) => Jump(p, s.conf, s.block, target)
        case CondBr(cond, yes, no) =>
          if Def(s.conf.regs, cond)
          then Jump(p, s.conf, s.block, if Ev(s.conf.regs, cond) != 0 then yes else no)
          else Stuck
  }

  ghost function Run(p: seq<Block>, s: State, n: nat): State
    decreases n
  {
    if n == 0 then s else Run(p, Step(p, s), n - 1)
  }

  ghost predicate Reaches(p: seq<Block>, s: State, t: State) {
    exists n: nat :: Run(p, s, n) == t
  }

  lemma OneStep(p: seq<Block>, s: State)
    ensures Reaches(p, s, Step(p, s))
  {
    assert Run(p, s, 1) == Run(p, Step(p, s), 0);
  }

  lemma {:induction false} RunSplit(p: seq<Block>, s: State, m: nat, n: nat)
    ensures Run(p, s, m + n) == Run(p, Run(p, s, m), n)
    decreases m
  {
    if m > 0 { RunSplit(p, Step(p, s), m - 1, n); }
  }

  lemma Chain(p: seq<Block>, s: State, t: State, u: State)
    requires Reaches(p, s, t) && Reaches(p, t, u)
    ensures Reaches(p, s, u)
  {
    var m: nat :| Run(p, s, m) == t;
    var n: nat :| Run(p, t, n) == u;
    RunSplit(p, s, m, n);
  }

  /** A run ends in at most one way. */
  lemma {:induction false} FinalStateUnique(p: seq<Block>, s: State, t: State, u: State)
    requires Reaches(p, s, t) && Reaches(p, s, u) && !t.Running? && !u.Running?
    ensures t == u
  {
    var m: nat :| Run(p, s, m) == t;
    var n: nat :| Run(p, s, n) == u;
    if m <= n {
      RunSplit(p, s, m, n - m);
      StaysStopped(p, t, n - m);
    } else {
      RunSplit(p, s, n, m - n);
      StaysStopped(p, u, m - n);
    }
  }

  lemma {:induction false} StaysStopped(p: seq<Block>, s: State, n: nat)
    requires !s.Running?
    ensures Run(p, s, n) == s
  {
    if n > 0 { StaysStopped(p, s, n - 1); }
  }

  /** Words have 64 bits, counters 32: sums and products wrap around at these. */
  lemma WordSizes(regs: Registers, a: Operand, b: Operand)
    requires Def(regs, a) && Def(regs, b)
    ensures Value(regs, Add64(a, b)) == (Ev(regs, a) + Ev(regs, b)) % 18446744073709551616
    ensures Value(regs, Mul64(a, b)) == Ev(regs, a) * Ev(regs, b) % 18446744073709551616
    ensures Value(regs, Add32(a, b)) == (Ev(regs, a) + Ev(regs, b)) % 4294967296
    ensures Value(regs, Sub32(a, b)) == (Ev(regs, a) - Ev(regs, b)) % 4294967296
    ensures Value(regs, ZExt(a)) == Ev(regs, a) % 4294967296
    ensures forall k :: Addr(18446744073709551615, k + 1) == k % 18446744073709551616
  {}
}
