/** The IR builder as a value: a list of blocks, the insertion block and the next free register,
    with the three operations every code generator is made of, and what each does when run. */
module Builders {
  import opened Machine

  datatype Builder = Builder(blocks: seq<Block>, cur: nat, next: nat)

  /** The insertion block exists and is not terminated. */
  predicate Ok(b: Builder) {
    b.cur < |b.blocks| && b.blocks[b.cur].term == Open
  }

  function Append(b: Builder, i: Instr): (r: Builder)
    requires Ok(b)
    ensures Ok(r) && Extends(b, r) && r.cur == b.cur && r.next == b.next
  {
    var block := b.blocks[b.cur];
    var r := b.(blocks := b.blocks[b.cur := block.(instrs := block.instrs + [i])]);
    r
  }

  /** Appends `next := e`. */
  function Bind(b: Builder, e: Expr): (r: Builder)
    requires Ok(b)
    ensures Ok(r) && Extends(b, r) && r.cur == b.cur && r.next == b.next + 1
  {
    Append(b, Let(b.next, e)).(next := b.next + 1)
  }

  /** Branches to a new block that begins with one phi per initial value, and inserts there. */
  function StartLoop(b: Builder, inits: seq<Operand>): (r: Builder)
    requires Ok(b)
    ensures Ok(r) && Extends(b, r) && r.cur == |b.blocks| && r.next == b.next + |inits|
    ensures |r.blocks| == |b.blocks| + 1
    ensures r.blocks[r.cur] == LoopHeader(b, inits)
  {
    var r := Builder(
      b.blocks[b.cur := b.blocks[b.cur].(term := Br(|b.blocks|))] + [LoopHeader(b, inits)],
      |b.blocks|, b.next + |inits|);
    r
  }

  function LoopHeader(b: Builder, inits: seq<Operand>): Block {
    Block(seq(|inits|, j requires 0 <= j < |inits| => Phi(b.next + j, [Incoming(inits[j], b.cur)])),
          [], Open)
  }

  predicate CanEndLoop(b: Builder, loop: nat, nexts: seq<Operand>) {
    Ok(b) && loop < |b.blocks| && |b.blocks[loop].phis| == |nexts|
  }

  /** Leaves the loop for a new block if cond holds, else goes back to `loop`; the phis of `loop`
      get the next values, recorded as coming from `latch`. */
  function EndLoop(b: Builder, loop: nat, latch: nat, cond: Operand, nexts: seq<Operand>): (r: Builder)
    requires CanEndLoop(b, loop, nexts)
    ensures Ok(r) && r.cur == |b.blocks| && r.next == b.next && |r.blocks| == |b.blocks| + 1
    ensures r.blocks[r.cur] == Block([], [], Open)
  {
    var ended := b.blocks[b.cur := b.blocks[b.cur].(term := CondBr(cond, |b.blocks|, loop))];
    var header := ended[loop].(phis := AddIncoming(ended[loop].phis, latch, nexts));
    var r := Builder(ended[loop := header] + [Block([], [], Open)], |b.blocks|, b.next);
    r
  }

  function AddIncoming(phis: seq<Phi>, from: nat, values: seq<Operand>): seq<Phi>
    requires |phis| == |values|
  {
    seq(|phis|, j requires 0 <= j < |phis| =>
      phis[j].(incoming := phis[j].incoming + [Incoming(values[j], from)]))
  }

  // ----- growth -----

  predicate PhiLe(x: Phi, y: Phi) { x.dst == y.dst && x.incoming <= y.incoming }

  /** y is x with more instructions (if x is open) and more phi entries. */
  predicate BlockLe(x: Block, y: Block) {
    && |x.phis| == |y.phis| && (forall j :: 0 <= j < |x.phis| ==> PhiLe(x.phis[j], y.phis[j]))
    && x.instrs <= y.instrs
    && (x.term != Open ==> x.instrs == y.instrs && x.term == y.term)
  }

  predicate Le(xs: seq<Block>, ys: seq<Block>) {
    |xs| <= |ys| && forall id :: 0 <= id < |xs| ==> BlockLe(xs[id], ys[id])
  }

  lemma BlockLeTransitive(x: Block, y: Block, z: Block)
    requires BlockLe(x, y) && BlockLe(y, z)
    ensures BlockLe(x, z)
  {
    forall j | 0 <= j < |x.phis| ensures PhiLe(x.phis[j], z.phis[j]) {
      assert PhiLe(x.phis[j], y.phis[j]) && PhiLe(y.phis[j], z.phis[j]);
    }
  }

  lemma LeTransitive(xs: seq<Block>, ys: seq<Block>, zs: seq<Block>)
    requires Le(xs, ys) && Le(ys, zs)
    ensures Le(xs, zs)
  {
    forall id | 0 <= id < |xs| ensures BlockLe(xs[id], zs[id]) {
      BlockLeTransitive(xs[id], ys[id], zs[id]);
    }
  }

  lemma EndLoopLe(b: Builder, loop: nat, latch: nat, cond: Operand, nexts: seq<Operand>)
    requires CanEndLoop(b, loop, nexts)
    ensures Le(b.blocks, EndLoop(b, loop, latch, cond, nexts).blocks)
  {
    var r := EndLoop(b, loop, latch, cond, nexts);
    forall id | 0 <= id < |b.blocks| ensures BlockLe(b.blocks[id], r.blocks[id]) {}
  }

  // ----- running what was appended -----

  /** The state of a run of a program that contains b's blocks, at b's insertion point. */
  function At(b: Builder, c: Conf): State
    requires Ok(b)
  {
    Running(c, b.cur, |b.blocks[b.cur].instrs|)
  }

  lemma AppendRuns(p: seq<Block>, b: Builder, i: Instr, c: Conf)
    requires Ok(b) && Le(Append(b, i).blocks, p) && Exec(i, c).0
    ensures Reaches(p, At(b, c), At(Append(b, i), Exec(i, c).1))
  {
    var r := Append(b, i);
    assert BlockLe(r.blocks[b.cur], p[b.cur]);
    assert p[b.cur].instrs[|b.blocks[b.cur].instrs|] == i;
    OneStep(p, At(b, c));
  }

  lemma BindRuns(p: seq<Block>, b: Builder, e: Expr, c: Conf)
    requires Ok(b) && Le(Bind(b, e).blocks, p) && Computable(c.regs, e)
    ensures Reaches(p, At(b, c), At(Bind(b, e), c.(regs := c.regs[b.next := Value(c.regs, e)])))
  {
    AppendRuns(p, b, Let(b.next, e), c);
  }

  predicate AllDef(regs: Registers, os: seq<Operand>) {
    forall j :: 0 <= j < |os| ==> Def(regs, os[j])
  }

  /** regs with `first`, `first + 1`, ... set to the values of os. */
  function SetAll(regs: Registers, first: nat, os: seq<Operand>): Registers
    requires AllDef(regs, os)
  {
    if os == [] then regs
    else
      var n := |os| - 1;
      SetAll(regs, first, os[..n])[first + n := Ev(regs, os[n])]
  }

  lemma {:induction false} EnterSetsAll(phis: seq<Phi>, from: nat, regs: Registers, first: nat, os: seq<Operand>)
    requires |phis| == |os| && AllDef(regs, os)
    requires forall j :: 0 <= j < |phis| ==> phis[j].dst == first + j
    requires forall j :: 0 <= j < |phis| ==>
      HasSource(phis[j].incoming, from) && Source(phis[j].incoming, from) == os[j]
    ensures CanEnter(phis, from, regs)
    ensures Enter(phis, from, regs) == SetAll(regs, first, os)
  {
    if phis != [] {
      var n := |phis| - 1;
      EnterSetsAll(phis[..n], from, regs, first, os[..n]);
      assert Source(phis[n].incoming, from) == os[n];
    }
  }

  lemma StartLoopRuns(p: seq<Block>, b: Builder, inits: seq<Operand>, c: Conf)
    requires Ok(b) && Le(StartLoop(b, inits).blocks, p) && AllDef(c.regs, inits)
    ensures Reaches(p, At(b, c), At(StartLoop(b, inits), c.(regs := SetAll(c.regs, b.next, inits))))
  {
    var r := StartLoop(b, inits);
    assert BlockLe(r.blocks[b.cur], p[b.cur]) && BlockLe(r.blocks[r.cur], p[r.cur]);
    var phis := p[r.cur].phis;
    forall j | 0 <= j < |phis|
      ensures phis[j].dst == b.next + j && HasSource(phis[j].incoming, b.cur)
      ensures Source(phis[j].incoming, b.cur) == inits[j]
    {
      assert PhiLe(r.blocks[r.cur].phis[j], phis[j]);
      assert phis[j].incoming[0] == Incoming(inits[j], b.cur);
    }
    EnterSetsAll(phis, b.cur, c.regs, b.next, inits);
    OneStep(p, At(b, c));
  }

  /** `loop` heads a loop started at `pre`: its phis are first, first + 1, ... and so far have only
      their initial values. */
  predicate Heads(b: Builder, loop: nat, pre: nat, first: nat, n: nat) {
    && loop < |b.blocks| && pre < |b.blocks| && b.blocks[pre].term != Open
    && |b.blocks[loop].phis| == n
    && forall j :: 0 <= j < n ==>
         var phi := b.blocks[loop].phis[j];
         phi.dst == first + j && |phi.incoming| == 1 && phi.incoming[0].from == pre
  }

  /** Falling out of the loop. */
  lemma EndLoopExits(p: seq<Block>, b: Builder, loop: nat, latch: nat, cond: Operand, nexts: seq<Operand>, c: Conf)
    requires CanEndLoop(b, loop, nexts)
    requires Le(EndLoop(b, loop, latch, cond, nexts).blocks, p)
    requires Def(c.regs, cond) && Ev(c.regs, cond) != 0
    ensures Reaches(p, At(b, c), At(EndLoop(b, loop, latch, cond, nexts), c))
  {
    var r := EndLoop(b, loop, latch, cond, nexts);
    assert BlockLe(r.blocks[b.cur], p[b.cur]) && BlockLe(r.blocks[r.cur], p[r.cur]);
    assert p[r.cur].phis == [];
    OneStep(p, At(b, c));
  }

  lemma SecondSource(incoming: seq<Incoming>, from: nat, value: Operand, pre: Incoming)
    requires [pre, Incoming(value, from)] <= incoming && pre.from != from
    ensures HasSource(incoming, from) && Source(incoming, from) == value
  {
    assert incoming[0] == pre && incoming[1] == Incoming(value, from);
    assert Source(incoming, from) == Source(incoming[1..], from);
  }

  lemma LatchSource(p: seq<Block>, b: Builder, loop: nat, pre: nat, first: nat, cond: Operand,
                    nexts: seq<Operand>, j: nat)
    requires Ok(b) && Heads(b, loop, pre, first, |nexts|) && j < |nexts|
    requires Le(EndLoop(b, loop, b.cur, cond, nexts).blocks, p)
    ensures |p[loop].phis| == |nexts| && p[loop].phis[j].dst == first + j
    ensures HasSource(p[loop].phis[j].incoming, b.cur)
    ensures Source(p[loop].phis[j].incoming, b.cur) == nexts[j]
  {
    var r := EndLoop(b, loop, b.cur, cond, nexts);
    assert BlockLe(r.blocks[loop], p[loop]);
    assert PhiLe(r.blocks[loop].phis[j], p[loop].phis[j]);
    var initial := b.blocks[loop].phis[j].incoming[0];
    assert r.blocks[loop].phis[j].incoming == [initial, Incoming(nexts[j], b.cur)];
    SecondSource(p[loop].phis[j].incoming, b.cur, nexts[j], initial);
  }

  lemma LatchEnters(p: seq<Block>, b: Builder, loop: nat, pre: nat, first: nat, cond: Operand,
                    nexts: seq<Operand>, regs: Registers)
    requires Ok(b) && Heads(b, loop, pre, first, |nexts|) && AllDef(regs, nexts)
    requires Le(EndLoop(b, loop, b.cur, cond, nexts).blocks, p)
    ensures CanEnter(p[loop].phis, b.cur, regs)
    ensures Enter(p[loop].phis, b.cur, regs) == SetAll(regs, first, nexts)
  {
    assert BlockLe(EndLoop(b, loop, b.cur, cond, nexts).blocks[loop], p[loop]);
    forall j | 0 <= j < |nexts|
      ensures p[loop].phis[j].dst == first + j && HasSource(p[loop].phis[j].incoming, b.cur)
      ensures Source(p[loop].phis[j].incoming, b.cur) == nexts[j]
    {
      LatchSource(p, b, loop, pre, first, cond, nexts, j);
    }
    EnterSetsAll(p[loop].phis, b.cur, regs, first, nexts);
  }

  lemma LatchBranches(p: seq<Block>, b: Builder, loop: nat, latch: nat, cond: Operand, nexts: seq<Operand>)
    requires CanEndLoop(b, loop, nexts) && Le(EndLoop(b, loop, latch, cond, nexts).blocks, p)
    ensures p[b.cur].instrs == b.blocks[b.cur].instrs
    ensures p[b.cur].term == CondBr(cond, |b.blocks|, loop)
  {
    assert BlockLe(EndLoop(b, loop, latch, cond, nexts).blocks[b.cur], p[b.cur]);
  }

  lemma BranchNotTaken(p: seq<Block>, c: Conf, block: nat, cond: Operand, yes: nat, no: nat)
    requires block < |p| && no < |p| && p[block].term == CondBr(cond, yes, no)
    requires Def(c.regs, cond) && Ev(c.regs, cond) == 0 && CanEnter(p[no].phis, block, c.regs)
    ensures Reaches(p, Running(c, block, |p[block].instrs|),
                    Running(c.(regs := Enter(p[no].phis, block, c.regs)), no, 0))
  {
    OneStep(p, Running(c, block, |p[block].instrs|));
  }

  /** Going back to the head, from the block recorded as latch. */
  lemma EndLoopRepeats(p: seq<Block>, b: Builder, loop: nat, pre: nat, first: nat, cond: Operand,
                       nexts: seq<Operand>, c: Conf)
    requires Ok(b) && Heads(b, loop, pre, first, |nexts|)
    requires Le(EndLoop(b, loop, b.cur, cond, nexts).blocks, p)
    requires Def(c.regs, cond) && Ev(c.regs, cond) == 0 && AllDef(c.regs, nexts)
    ensures Reaches(p, At(b, c), Running(c.(regs := SetAll(c.regs, first, nexts)), loop, 0))
  {
    LatchBranches(p, b, loop, b.cur, cond, nexts);
    LatchEnters(p, b, loop, pre, first, cond, nexts, c.regs);
    BranchNotTaken(p, c, b.cur, cond, |b.blocks|, loop);
  }

  // ----- what emission leaves alone -----

  /** Emission from b to r: only the insertion block of b and new blocks were written. */
  predicate Extends(b: Builder, r: Builder) {
    && Ok(b) && Ok(r) && b.next <= r.next && |b.blocks| <= |r.blocks|
    && (r.cur == b.cur || (r.cur >= |b.blocks| && r.blocks[b.cur].term != Open))
    && (forall id :: 0 <= id < |b.blocks| && id != b.cur ==> r.blocks[id] == b.blocks[id])
    && r.blocks[b.cur].phis == b.blocks[b.cur].phis
    && b.blocks[b.cur].instrs <= r.blocks[b.cur].instrs
  }

  lemma ExtendsTransitive(a: Builder, b: Builder, c: Builder)
    requires Extends(a, b) && Extends(b, c)
    ensures Extends(a, c)
  {}

  lemma ExtendsLe(b: Builder, r: Builder)
    requires Extends(b, r)
    ensures Le(b.blocks, r.blocks)
  {
    forall id | 0 <= id < |b.blocks| ensures BlockLe(b.blocks[id], r.blocks[id]) {
      if id != b.cur { assert r.blocks[id] == b.blocks[id]; }
    }
  }

  /** A loop whose body is an emission is an emission. */
  lemma LoopExtends(b: Builder, inits: seq<Operand>, body: Builder, latch: nat, cond: Operand, nexts: seq<Operand>)
    requires Ok(b) && Extends(StartLoop(b, inits), body) && |inits| == |nexts|
    ensures CanEndLoop(body, |b.blocks|, nexts)
    ensures Extends(b, EndLoop(body, |b.blocks|, latch, cond, nexts))
    ensures Heads(body, |b.blocks|, b.cur, b.next, |inits|)
  {
    var start := StartLoop(b, inits);
    assert body.blocks[start.cur].phis == start.blocks[start.cur].phis;
    assert body.blocks[b.cur] == start.blocks[b.cur];
  }
}
