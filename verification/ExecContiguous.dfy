/** Running the code of codegen_contiguous.cpp: a counting loop around the code of the base. */
module ExecContiguous {
  import opened Datatypes
  import opened Wellformed
  import opened Machine
  import opened Builders
  import opened Transfers
  import opened Emission
  import opened Routes
  import opened ExecPrimitive
  import opened Execution
  import opened Calls

  datatype Loop = Loop(head: Builder, body: Builder, b1: Builder, b2: Builder, b3: Builder, test: Builder)

  /** The builders inside EmitContiguous. */
  function ContiguousLoop(b: Builder, pack: bool, inbuf: Operand, n: Operand, outbuf: Operand,
                          base: Datatype, inInc: int, outInc: int, count: int): (l: Loop)
    requires Ok(b)
    ensures Ok(l.head) && l.head.next == b.next + 3 && l.head.cur == |b.blocks|
    ensures l.head.blocks[l.head.cur].instrs == []
  {
    var head := StartLoop(b, [outbuf, inbuf, Imm(0)]);
    var out1, in1, i := Reg(b.next), Reg(b.next + 1), Reg(b.next + 2);
    var body := Emit(base, pack, head, in1, Imm(count), out1);
    var b1 := Bind(body, Add64(out1, Imm(outInc)));
    var b2 := Bind(b1, Add64(in1, Imm(inInc)));
    var b3 := Bind(b2, Add32(i, Imm(1)));
    Loop(head, body, b1, b2, b3, Bind(b3, Equal(Reg(b2.next), n)))
  }

  lemma ContiguousIsBuilt(p: seq<Block>, b: Builder, pack: bool, inbuf: Operand, n: Operand, outbuf: Operand,
                          base: Datatype, inInc: int, outInc: int, count: int)
    requires Ok(b) && Le(EmitContiguous(b, pack, inbuf, n, outbuf, base, inInc, outInc, count).blocks, p)
    ensures var l := ContiguousLoop(b, pack, inbuf, n, outbuf, base, inInc, outInc, count);
      var nexts := [Reg(l.body.next), Reg(l.b1.next), Reg(l.b2.next)];
      && Ok(l.test) && Le(l.test.blocks, p) && CanEndLoop(l.test, l.head.cur, nexts)
      && Heads(l.test, l.head.cur, b.cur, b.next, 3)
      && EmitContiguous(b, pack, inbuf, n, outbuf, base, inInc, outInc, count)
         == EndLoop(l.test, l.head.cur, l.test.cur, Reg(l.b3.next), nexts)
  {
    hide Extends, Le, Append, StartLoop, Emit, EndLoop;
    var l := ContiguousLoop(b, pack, inbuf, n, outbuf, base, inInc, outInc, count);
    var nexts := [Reg(l.body.next), Reg(l.b1.next), Reg(l.b2.next)];
    ExtendsTransitive(l.head, l.body, l.b1);
    ExtendsTransitive(l.head, l.b1, l.b2);
    ExtendsTransitive(l.head, l.b2, l.b3);
    ExtendsTransitive(l.head, l.b3, l.test);
    LoopExtends(b, [outbuf, inbuf, Imm(0)], l.test, l.test.cur, Reg(l.b3.next), nexts);
    BeforeEndLoop(p, l.test, l.head.cur, l.test.cur, Reg(l.b3.next), nexts);
  }

  lemma ContiguousHeadIsBuilt(p: seq<Block>, b: Builder, pack: bool, inbuf: Operand, n: Operand, outbuf: Operand,
                              base: Datatype, inInc: int, outInc: int, count: int)
    requires Ok(b) && Le(EmitContiguous(b, pack, inbuf, n, outbuf, base, inInc, outInc, count).blocks, p)
    ensures var l := ContiguousLoop(b, pack, inbuf, n, outbuf, base, inInc, outInc, count);
      l.head == StartLoop(b, [outbuf, inbuf, Imm(0)]) && Le(l.head.blocks, p)
  {
    var l := ContiguousLoop(b, pack, inbuf, n, outbuf, base, inInc, outInc, count);
    ContiguousIsBuilt(p, b, pack, inbuf, n, outbuf, base, inInc, outInc, count);
    Earlier(p, l.b3, l.test); Earlier(p, l.b2, l.b3); Earlier(p, l.b1, l.b2); Earlier(p, l.body, l.b1);
    Earlier(p, l.head, l.body);
  }

  /** The base's code at the head of a counting loop: `count` items, and the phis are still there. */
  lemma BodyOf3(p: seq<Block>, head: Builder, base: Datatype, pack: bool, count: int, k: nat, n: Operand,
                x: int, y: int, i: int, conf: Conf)
    returns (conf': Conf)
    requires Ok(head) && head.next == k + 3 && Runs(p, base, pack)
    requires Le(Emit(base, pack, head, Reg(k + 1), Imm(count), Reg(k)).blocks, p)
    requires Head3(conf.regs, k, y, x, i) && Usable(conf.regs, n, k)
    requires CountOk(base, count) && count <= INT32_MAX
    requires Ready(conf.mem, Along(RouteCopies(base, pack, count), x, y))
    ensures Done(p, k, head, Emit(base, pack, head, Reg(k + 1), Imm(count), Reg(k)), conf, conf',
                 Along(RouteCopies(base, pack, count), x, y))
    ensures Head3(conf'.regs, k, y, x, i) && Usable(conf'.regs, n, k) && Ev(conf'.regs, n) == Ev(conf.regs, n)
    ensures head.next <= Emit(base, pack, head, Reg(k + 1), Imm(count), Reg(k)).next
  {
    hide Runs, Ready, Copy, Reaches, Le, Extends, Emit, At, Done, Keeps, Along, RouteCopies;
    var body := Emit(base, pack, head, Reg(k + 1), Imm(count), Reg(k));
    var ts := Along(RouteCopies(base, pack, count), x, y);
    conf' := RunBase(p, base, pack, head, Reg(k + 1), Imm(count), Reg(k), conf);
    Kept(p, head.next, head, body, conf, conf', ts, Reg(k));
    Kept(p, head.next, head, body, conf, conf', ts, Reg(k + 1));
    Kept(p, head.next, head, body, conf, conf', ts, Reg(k + 2));
    Kept(p, head.next, head, body, conf, conf', ts, n);
    Weaken(p, head.next, k, head, body, conf, conf', ts);
  }

  lemma ContiguousPass(p: seq<Block>, b: Builder, pack: bool, inbuf: Operand, n: Operand, outbuf: Operand,
                       base: Datatype, inInc: int, outInc: int, count: int, x: int, y: int, i: int, conf: Conf)
    returns (conf': Conf)
    requires Ok(b) && Le(EmitContiguous(b, pack, inbuf, n, outbuf, base, inInc, outInc, count).blocks, p)
    requires Head3(conf.regs, b.next, y, x, i) && Usable(conf.regs, n, b.next)
    requires Runs(p, base, pack) && CountOk(base, count) && count <= INT32_MAX
    requires Ready(conf.mem, Along(RouteCopies(base, pack, count), x, y))
    ensures var l := ContiguousLoop(b, pack, inbuf, n, outbuf, base, inInc, outInc, count);
      && Done(p, b.next, l.head, l.test, conf, conf', Along(RouteCopies(base, pack, count), x, y))
      && l.body.next in conf'.regs && conf'.regs[l.body.next] == Wrap(y + outInc)
      && l.b1.next in conf'.regs && conf'.regs[l.b1.next] == Wrap(x + inInc)
      && l.b2.next in conf'.regs && conf'.regs[l.b2.next] == Wrap32(i + 1)
      && l.b3.next in conf'.regs && conf'.regs[l.b3.next] == (if Wrap32(i + 1) == Ev(conf.regs, n) then 1 else 0)
  {
    hide Runs, Ready, Copy, Reaches, Le, Extends, Append, Bind, Emit, StartLoop, EndLoop, EmitContiguous, At,
         Done, Keeps, Along, RouteCopies, Heads, CanEndLoop;
    var l := ContiguousLoop(b, pack, inbuf, n, outbuf, base, inInc, outInc, count);
    ContiguousIsBuilt(p, b, pack, inbuf, n, outbuf, base, inInc, outInc, count);
    Earlier(p, l.b3, l.test); Earlier(p, l.b2, l.b3); Earlier(p, l.b1, l.b2); Earlier(p, l.body, l.b1);
    var ts := Along(RouteCopies(base, pack, count), x, y);
    var c0 := BodyOf3(p, l.head, base, pack, count, b.next, n, x, y, i, conf);
    var c1 := ThenAdd(p, b.next, l.head, l.body, b.next, outInc, conf, c0, ts);
    var c2 := ThenAdd(p, b.next, l.head, l.b1, b.next + 1, inInc, conf, c1, ts);
    var c3 := ThenCount(p, b.next, l.head, l.b2, b.next + 2, conf, c2, ts);
    conf' := ThenTest(p, b.next, l.head, l.b3, Reg(l.b2.next), n, conf, c3, ts);
  }

  /** With m of the n rounds to go, the loop does m rounds and exits. */
  lemma ContiguousPasses(p: seq<Block>, b: Builder, pack: bool, inbuf: Operand, n: Operand, outbuf: Operand,
                         base: Datatype, inInc: int, outInc: int, count: int, m: nat, x: int, y: int, conf: Conf)
    returns (conf': Conf)
    requires Ok(b) && Le(EmitContiguous(b, pack, inbuf, n, outbuf, base, inInc, outInc, count).blocks, p)
    requires Usable(conf.regs, n, b.next) && 1 <= m <= Ev(conf.regs, n) < W32
    requires Head3(conf.regs, b.next, y, x, Ev(conf.regs, n) - m)
    requires Runs(p, base, pack) && CountOk(base, count) && count <= INT32_MAX
    requires Ready(conf.mem, Along(Laps(RouteCopies(base, pack, count), outInc, inInc, m), x, y))
    ensures var l := ContiguousLoop(b, pack, inbuf, n, outbuf, base, inInc, outInc, count);
      Done(p, b.next, l.head, EmitContiguous(b, pack, inbuf, n, outbuf, base, inInc, outInc, count), conf, conf',
           Along(Laps(RouteCopies(base, pack, count), outInc, inInc, m), x, y))
    decreases m
  {
    hide Runs, Ready, Along, Copy, Reaches, Le, Append, Bind, Emit, StartLoop, EndLoop, EmitContiguous, At,
         ContiguousLoop, Heads, CanEndLoop, Laps, RouteCopies;
    var l := ContiguousLoop(b, pack, inbuf, n, outbuf, base, inInc, outInc, count);
    ContiguousIsBuilt(p, b, pack, inbuf, n, outbuf, base, inInc, outInc, count);
    var r := RouteCopies(base, pack, count);
    var x1, y1 := Wrap(x + inInc), Wrap(y + outInc);
    var first, rest := Along(r, x, y), Along(Laps(r, outInc, inInc, m - 1), x1, y1);
    OneLap(r, outInc, inInc, m, x, y);
    ReadyParts(conf.mem, first, rest);
    var c1 := ContiguousPass(p, b, pack, inbuf, n, outbuf, base, inInc, outInc, count, x, y, Ev(conf.regs, n) - m,
                             conf);
    var nexts := [Reg(l.body.next), Reg(l.b1.next), Reg(l.b2.next)];
    if m == 1 {
      conf' := c1;
      ThenExit(p, b.next, l.head, l.test, l.head.cur, l.test.cur, Reg(l.b3.next), nexts, conf, c1, first);
    } else {
      SetThree(c1.regs, b.next, nexts[0], nexts[1], nexts[2]);
      var c2 := ThenRepeat(p, b.next, l.head, l.test, b.cur, Reg(l.b3.next), nexts, conf, c1, first);
      conf' := ContiguousPasses(p, b, pack, inbuf, n, outbuf, base, inInc, outInc, count, m - 1, x1, y1, c2);
      Around(p, b.next, l.head, EmitContiguous(b, pack, inbuf, n, outbuf, base, inInc, outInc, count),
             conf, c2, conf', first, rest);
    }
  }

  /** The whole generator: n rounds, from the code before the loop to the code after it. */
  lemma ContiguousRuns(p: seq<Block>, b: Builder, pack: bool, inbuf: Operand, n: Operand, outbuf: Operand,
                       base: Datatype, inInc: int, outInc: int, count: int, conf: Conf)
    returns (conf': Conf)
    requires Ok(b) && Le(EmitContiguous(b, pack, inbuf, n, outbuf, base, inInc, outInc, count).blocks, p)
    requires Args(conf.regs, b.next, inbuf, n, outbuf) && Ev(conf.regs, n) >= 1
    requires Runs(p, base, pack) && CountOk(base, count) && count <= INT32_MAX
    requires Ready(conf.mem, Along(Laps(RouteCopies(base, pack, count), outInc, inInc, Ev(conf.regs, n)),
                                   Ev(conf.regs, inbuf), Ev(conf.regs, outbuf)))
    ensures Done(p, b.next, b, EmitContiguous(b, pack, inbuf, n, outbuf, base, inInc, outInc, count), conf, conf',
                 Along(Laps(RouteCopies(base, pack, count), outInc, inInc, Ev(conf.regs, n)),
                       Ev(conf.regs, inbuf), Ev(conf.regs, outbuf)))
  {
    hide Runs, Ready, Along, Copy, Reaches, Le, Append, Bind, Emit, StartLoop, EndLoop, EmitContiguous, At,
         ContiguousLoop, Heads, CanEndLoop, Laps, RouteCopies;
    var l := ContiguousLoop(b, pack, inbuf, n, outbuf, base, inInc, outInc, count);
    var x, y, total := Ev(conf.regs, inbuf), Ev(conf.regs, outbuf), Ev(conf.regs, n);
    ContiguousHeadIsBuilt(p, b, pack, inbuf, n, outbuf, base, inInc, outInc, count);
    DoneNothing(p, b, conf);
    SetThree(conf.regs, b.next, outbuf, inbuf, Imm(0));
    var c1 := ThenStartLoop(p, b.next, b, b, [outbuf, inbuf, Imm(0)], conf, conf, []);
    conf' := ContiguousPasses(p, b, pack, inbuf, n, outbuf, base, inInc, outInc, count, total, x, y, c1);
    ThenLoop(p, b.next, b, l.head, EmitContiguous(b, pack, inbuf, n, outbuf, base, inInc, outInc, count),
             conf, c1, conf', Along(Laps(RouteCopies(base, pack, count), outInc, inInc, total), x, y));
  }
}
