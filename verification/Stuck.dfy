/** Running a table loop whose base leaves its block: the phis of the loop have no entry for the block that the
    run comes back from, so it ends at the second table entry. */
module Stuckness {
  import opened Datatypes
  import opened Wellformed
  import opened Machine
  import opened Builders
  import opened Transfers
  import opened Emission
  import opened Routes
  import opened ExecPrimitive
  import opened Execution
  import opened Calls
  import opened ExecIndexed
  import opened ExecTable
  import opened ExecTypes
  import opened Compilation
  import opened Structure
  import opened Steps
  import opened Defects

  /** Going back to a loop that recorded itself as latch, from another block. */
  lemma WrongLatchSticks(p: seq<Block>, b: Builder, loop: nat, pre: nat, first: nat, cond: Operand,
                         nexts: seq<Operand>, c: Conf)
    requires CanEndLoop(b, loop, nexts) && nexts != [] && Heads(b, loop, pre, first, |nexts|) && b.cur != loop
    requires Le(EndLoop(b, loop, loop, cond, nexts).blocks, p)
    requires p[loop].phis == EndLoop(b, loop, loop, cond, nexts).blocks[loop].phis
    requires Def(c.regs, cond) && Ev(c.regs, cond) == 0
    ensures Reaches(p, At(b, c), Stuck)
  {
    LatchBranches(p, b, loop, loop, cond, nexts);
    var initial := b.blocks[loop].phis[0].incoming[0];
    assert p[loop].phis[0].incoming == [initial, Incoming(nexts[0], loop)];
    assert !HasSource(p[loop].phis[0].incoming, b.cur);
    OneStep(p, At(b, c));
  }

  /** The first block, up to the test. */
  lemma FirstBlockRuns(p: seq<Block>, b: Builder, pack: bool, contig1: Operand, noncontig1: Operand,
                       blocklen: int, base: Datatype, table: seq<int>, conf: Conf)
    returns (conf': Conf)
    requires Ok(b) && TableFits(blocklen, table) && |table| >= 2 && Runs(p, base, pack)
    requires Le(TableInner(b, pack, contig1, noncontig1, blocklen, base, table).0.blocks, p)
    requires Args(conf.regs, b.next, contig1, Imm(0), noncontig1)
    requires var s, c := Wrap(Ev(conf.regs, noncontig1) + table[0]), Ev(conf.regs, contig1);
      Ready(conf.mem, Along(RouteCopies(base, pack, blocklen), InOf(pack, s, c), OutOf(pack, s, c)))
    ensures var l := TableLoop(b, pack, contig1, noncontig1, blocklen, base, table);
      && Ok(l.test) && Reaches(p, At(b, conf), At(l.test, conf')) && l.b2.next in conf'.regs
      && conf'.regs[l.b2.next] == 0
  {
    hide Runs, Ready, Along, RouteCopies, Copy, Reaches, Le, Append, Bind, TableInner, TableLoop, At, Heads,
         CanEndLoop, Emit, StartLoop, EndLoop, Extent, Keeps;
    var l := TableLoop(b, pack, contig1, noncontig1, blocklen, base, table);
    TableIsBuilt(p, b, pack, contig1, noncontig1, blocklen, base, table);
    DoneNothing(p, b, conf);
    SetTwo(conf.regs, b.next, Imm(0), contig1);
    var c1 := ThenStartLoop(p, b.next, b, b, [Imm(0), contig1], conf, conf, []);
    Kept(p, b.next, b, l.head, conf, c1, [], noncontig1);
    conf' := TablePass(p, b, pack, contig1, noncontig1, blocklen, base, table, 0, Ev(conf.regs, contig1), c1);
    Chain(p, At(b, conf), At(l.head, c1), At(l.test, conf'));
  }

  /** The first block is moved, the second is never reached. */
  lemma InnerSticks(p: seq<Block>, b: Builder, pack: bool, contig1: Operand, noncontig1: Operand,
                    blocklen: int, base: Datatype, table: seq<int>, conf: Conf)
    requires Ok(b) && TableFits(blocklen, table) && |table| >= 2 && Runs(p, base, pack)
    requires !Straight(base, Imm(blocklen))
    requires Le(TableInner(b, pack, contig1, noncontig1, blocklen, base, table).0.blocks, p)
    requires |b.blocks| < |p| && |b.blocks| < |TableInner(b, pack, contig1, noncontig1, blocklen, base, table).0.blocks|
    requires p[|b.blocks|].phis
          == TableInner(b, pack, contig1, noncontig1, blocklen, base, table).0.blocks[|b.blocks|].phis
    requires Args(conf.regs, b.next, contig1, Imm(0), noncontig1)
    requires var s, c := Wrap(Ev(conf.regs, noncontig1) + table[0]), Ev(conf.regs, contig1);
      Ready(conf.mem, Along(RouteCopies(base, pack, blocklen), InOf(pack, s, c), OutOf(pack, s, c)))
    ensures Reaches(p, At(b, conf), Stuck)
  {
    hide Runs, Ready, Along, RouteCopies, Reaches, Le, Append, Bind, TableInner, TableLoop, At, Heads,
         CanEndLoop, Emit, StartLoop, EndLoop, Extent, Straight, TableFits, Args;
    var l := TableLoop(b, pack, contig1, noncontig1, blocklen, base, table);
    TableIsBuilt(p, b, pack, contig1, noncontig1, blocklen, base, table);
    StraightStays(base, pack, l.place, if pack then Reg(l.ext.next) else Reg(b.next + 1), Imm(blocklen),
                  if pack then Reg(b.next + 1) else Reg(l.ext.next));
    var c2 := FirstBlockRuns(p, b, pack, contig1, noncontig1, blocklen, base, table, conf);
    WrongLatchSticks(p, l.test, l.head.cur, b.cur, b.next, Reg(l.b2.next), [Reg(l.b1.next), Reg(l.body.next)], c2);
    Chain(p, At(b, conf), At(l.test, c2), Stuck);
  }

  /** Nothing around the inner loop adds to its phis. */
  lemma InnerHeadKept(b: Builder, pack: bool, contig: Operand, noncontig: Operand, exit: Operand,
                      extent: int, blocklen: int, base: Datatype, table: seq<int>)
    requires Ok(b)
    ensures var l := RowLoop(b, pack, contig, noncontig, exit, extent, blocklen, base, table);
      var r := TableOuter(b, pack, contig, noncontig, exit, extent, blocklen, base, table);
      && |l.head.blocks| < |l.row.blocks| && |l.head.blocks| < |r.blocks|
      && r.blocks[|l.head.blocks|].phis == l.row.blocks[|l.head.blocks|].phis
      && Finish(r)[|l.head.blocks|].phis == l.row.blocks[|l.head.blocks|].phis
  {
    hide Append, StartLoop, TableInner, Bind, Le;
    var l := RowLoop(b, pack, contig, noncontig, exit, extent, blocklen, base, table);
    var r := TableOuter(b, pack, contig, noncontig, exit, extent, blocklen, base, table);
    FinishContains(r);
    RowsAreBuilt(Finish(r), b, pack, contig, noncontig, exit, extent, blocklen, base, table);
    InnerEndsLater(l.head, pack, Reg(b.next), Reg(b.next + 1), blocklen, base, table);
    ExtendsTransitive(l.row, l.step, l.test);
    assert l.test.blocks[|l.head.blocks|] == l.row.blocks[|l.head.blocks|];
  }

  lemma InnerEndsLater(b: Builder, pack: bool, contig1: Operand, noncontig1: Operand,
                       blocklen: int, base: Datatype, table: seq<int>)
    requires Ok(b)
    ensures var r := TableInner(b, pack, contig1, noncontig1, blocklen, base, table).0;
      |b.blocks| < r.cur < |r.blocks|
  {
    hide Append, StartLoop, EndLoop, Bind, Emit, Extends;
    var r := TableInner(b, pack, contig1, noncontig1, blocklen, base, table).0;
    FinishContains(r);
    TableIsBuilt(Finish(r), b, pack, contig1, noncontig1, blocklen, base, table);
    var l := TableLoop(b, pack, contig1, noncontig1, blocklen, base, table);
    HeadIsThere(l.test, l.head.cur, [Reg(l.b1.next), Reg(l.body.next)]);
  }

  lemma HeadIsThere(b: Builder, loop: nat, nexts: seq<Operand>)
    requires CanEndLoop(b, loop, nexts)
    ensures loop < |b.blocks|
  {}

  /** The transfers of the block at the first table entry. */
  function FirstBlockMoves(t: Datatype, pack: bool, inbuf: int, outbuf: int): seq<Transfer>
    requires Tabled(t)
  {
    var at := Wrap32(t.displs[0] * Extent(t.base));
    Along(RouteCopies(t.base, pack, t.blocklen), if pack then Wrap(inbuf + at) else inbuf,
          if pack then outbuf else Wrap(outbuf + at))
  }

  lemma TableOf(t: Datatype)
    requires Tabled(t) && Positive(t) && Fits(t)
    ensures var table := DisplacementTable(t.displs, t.base);
      TableFits(t.blocklen, table) && |table| >= 2 && table[0] == Wrap32(t.displs[0] * Extent(t.base))
    ensures 1 <= Size(t) <= INT32_MAX && 1 <= Extent(t) <= INT32_MAX && Positive(t.base) && Fits(t.base)
  {
    hide Size, Extent, Lb, Ub;
    SizeAndExtentPositive(t);
  }

  /** Up to the head of the loop over the items. */
  lemma ReachHead(p: seq<Block>, b: Builder, pack: bool, inbuf: Operand, n: Operand, outbuf: Operand, extent: int,
                  size: nat, blocklen: int, base: Datatype, table: seq<int>, conf: Conf)
    returns (conf': Conf)
    requires Ok(b) && Le(EmitTable(b, pack, inbuf, n, outbuf, extent, size, blocklen, base, table).blocks, p)
    requires Args(conf.regs, b.next, inbuf, n, outbuf) && size <= INT32_MAX
    ensures var b3 := Prelude(b, pack, inbuf, n, outbuf, size);
      var compact, scattered := CompactOf(pack, inbuf, outbuf), ScatteredOf(pack, inbuf, outbuf);
      var l := RowLoop(b3, pack, compact, scattered, Reg(b.next + 2), extent, blocklen, base, table);
      && Reaches(p, At(b, conf), At(l.head, conf')) && conf'.mem == conf.mem && Le(l.row.blocks, p)
      && Def(conf.regs, compact) && Def(conf.regs, scattered)
      && Head2(conf'.regs, b3.next, Ev(conf.regs, compact), Ev(conf.regs, scattered))
  {
    hide Copy, Reaches, Le, EmitTable, TableOuter, TableInner, StartLoop, Bind, Append, Prelude, Times, Done, Usable;
    var compact, scattered := CompactOf(pack, inbuf, outbuf), ScatteredOf(pack, inbuf, outbuf);
    var b3, exit := Prelude(b, pack, inbuf, n, outbuf, size), Reg(b.next + 2);
    TableParts(p, b, pack, inbuf, n, outbuf, extent, size, blocklen, base, table);
    RowsAreBuilt(p, b3, pack, compact, scattered, exit, extent, blocklen, base, table);
    var l := RowLoop(b3, pack, compact, scattered, exit, extent, blocklen, base, table);
    ArgsOf(conf.regs, b.next, inbuf, n, outbuf);
    var c0 := EnterTable(p, b, pack, inbuf, n, outbuf, size, conf);
    ArgsOf(c0.regs, b3.next, compact, Imm(0), scattered);
    conf' := EnterRows(p, b3, compact, scattered, exit, c0);
    ReachesBoth(p, b, b3, l.head, conf, c0, conf');
  }

  /** A LONG INDEXED BLOCK OVER A TYPE THAT LEAVES ITS BLOCK is never packed: whatever the count, every call whose
      first block can be moved ends in an undefined phi. */
  lemma TableSticks(t: Datatype, pack: bool, mem: Memory, inbuf: int, n: int, outbuf: int)
    requires Tabled(t) && Positive(t) && Fits(t) && TablesSingle(t.base) && !Straight(t.base, Imm(t.blocklen))
    requires 0 <= inbuf < W && 0 <= outbuf < W && 0 <= n < W32
    requires Ready(mem, FirstBlockMoves(t, pack, inbuf, outbuf))
    ensures Reaches(Function(t, pack), Call(mem, inbuf, n, outbuf), Stuck)
    ensures !exists mem' :: Reaches(Function(t, pack), Call(mem, inbuf, n, outbuf), Returned(mem'))
  {
    hide Positive, Fits, TablesSingle, Straight, Ready, Along, RouteCopies, Reaches, Emit, EmitTable, Finish, Le,
         Runs, Size, Extent, DisplacementTable, Start, Args, Prelude, TableOuter, RowLoop, TableInner, Emittable;
    var p := Function(t, pack);
    var table := DisplacementTable(t.displs, t.base);
    var size, extent := Size(t), Extent(t);
    TableOf(t);
    BaseIsEmittable(t);
    EmitRuns(p, t.base, pack);
    EmitTableCase(t, pack, ENTRY, Reg(0), Reg(1), Reg(2));
    FinishContains(Emit(t, pack, ENTRY, Reg(0), Reg(1), Reg(2)));
    StartArgs(mem, inbuf, n, outbuf);
    StartMemory(mem, inbuf, n, outbuf);
    StartIsCall(mem, inbuf, n, outbuf);
    var compact, scattered := CompactOf(pack, Reg(0), Reg(2)), ScatteredOf(pack, Reg(0), Reg(2));
    var b3, exit := Prelude(ENTRY, pack, Reg(0), Reg(1), Reg(2), size), Reg(ENTRY.next + 2);
    TableParts(p, ENTRY, pack, Reg(0), Reg(1), Reg(2), extent, size, t.blocklen, t.base, table);
    RowsAreBuilt(p, b3, pack, compact, scattered, exit, extent, t.blocklen, t.base, table);
    InnerHeadKept(b3, pack, compact, scattered, exit, extent, t.blocklen, t.base, table);
    var conf := Start(mem, inbuf, n, outbuf);
    var l := RowLoop(b3, pack, compact, scattered, exit, extent, t.blocklen, t.base, table);
    var c1 := ReachHead(p, ENTRY, pack, Reg(0), Reg(1), Reg(2), extent, size, t.blocklen, t.base, table, conf);
    HeadArgs(c1.regs, b3.next, Ev(conf.regs, compact), Ev(conf.regs, scattered));
    InnerSticks(p, l.head, pack, Reg(b3.next), Reg(b3.next + 1), t.blocklen, t.base, table, c1);
    Chain(p, At(ENTRY, conf), At(l.head, c1), Stuck);
    forall mem' | Reaches(p, Call(mem, inbuf, n, outbuf), Returned(mem')) ensures false {
      FinalStateUnique(p, Call(mem, inbuf, n, outbuf), Stuck, Returned(mem'));
    }
  }

  lemma HeadArgs(regs: Registers, k: nat, c: int, d: int)
    requires Head2(regs, k, c, d)
    ensures Args(regs, k + 2, Reg(k), Imm(0), Reg(k + 1)) && Ev(regs, Reg(k)) == c && Ev(regs, Reg(k + 1)) == d
  {}

  lemma ReachesBoth(p: seq<Block>, a: Builder, b: Builder, c: Builder, conf: Conf, conf1: Conf, conf2: Conf)
    requires Done(p, a.next, a, b, conf, conf1, []) && Done(p, b.next, b, c, conf1, conf2, [])
    ensures Reaches(p, At(a, conf), At(c, conf2))
  {
    Then(p, a.next, a, b, c, conf, conf1, conf2, [], []);
  }

  lemma BaseIsEmittable(t: Datatype)
    requires Tabled(t) && Positive(t) && Fits(t) && TablesSingle(t.base)
    ensures Emittable(t.base)
  {}
}
