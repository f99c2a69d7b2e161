/** Running the code of codegen_vector.cpp: a counting loop around a loop without a counter, which exits when
    its packed pointer meets the end of the item. */
module ExecVector {
  import opened Datatypes
  import opened Wellformed
  import opened Machine
  import opened Builders
  import opened Transfers
  import opened Emission
  import opened Routes
  import opened ExecPrimitive
  import opened Execution
  import opened Calls

  // ----- the inner loop -----

  datatype Inner = Inner(head: Builder, body: Builder, b1: Builder, b2: Builder, test: Builder)

  function InnerLoop(b: Builder, pack: bool, out1: Operand, in1: Operand, limit: Operand,
                     base: Datatype, blocklen: int, inStride: int, outStride: int): (l: Inner)
    requires Ok(b)
    ensures Ok(l.head) && l.head.next == b.next + 2 && l.head.cur == |b.blocks|
    ensures l.head.blocks[l.head.cur].instrs == []
  {
    var head := StartLoop(b, [out1, in1]);
    var body := Emit(base, pack, head, Reg(b.next + 1), Imm(blocklen), Reg(b.next));
    var b1 := Bind(body, Add64(Reg(b.next), Imm(outStride)));
    var b2 := Bind(b1, Add64(Reg(b.next + 1), Imm(inStride)));
    Inner(head, body, b1, b2, Bind(b2, Equal(if pack then Reg(body.next) else Reg(b1.next), limit)))
  }

  lemma InnerIsBuilt(p: seq<Block>, b: Builder, pack: bool, out1: Operand, in1: Operand, limit: Operand,
                     base: Datatype, blocklen: int, inStride: int, outStride: int)
    requires Ok(b) && Le(VectorInner(b, pack, out1, in1, limit, base, blocklen, inStride, outStride).blocks, p)
    ensures var l := InnerLoop(b, pack, out1, in1, limit, base, blocklen, inStride, outStride);
      var nexts := [Reg(l.body.next), Reg(l.b1.next)];
      && l.head == StartLoop(b, [out1, in1]) && Le(l.head.blocks, p)
      && Ok(l.test) && Le(l.test.blocks, p) && CanEndLoop(l.test, l.head.cur, nexts)
      && Heads(l.test, l.head.cur, b.cur, b.next, 2)
      && VectorInner(b, pack, out1, in1, limit, base, blocklen, inStride, outStride)
         == EndLoop(l.test, l.head.cur, l.test.cur, Reg(l.b2.next), nexts)
  {
    hide Extends, Le, Append, StartLoop, Emit, EndLoop;
    var l := InnerLoop(b, pack, out1, in1, limit, base, blocklen, inStride, outStride);
    var nexts := [Reg(l.body.next), Reg(l.b1.next)];
    ExtendsTransitive(l.head, l.body, l.b1);
    ExtendsTransitive(l.head, l.b1, l.b2);
    ExtendsTransitive(l.head, l.b2, l.test);
    LoopExtends(b, [out1, in1], l.test, l.test.cur, Reg(l.b2.next), nexts);
    BeforeEndLoop(p, l.test, l.head.cur, l.test.cur, Reg(l.b2.next), nexts);
    Earlier(p, l.b2, l.test); Earlier(p, l.b1, l.b2); Earlier(p, l.body, l.b1); Earlier(p, l.head, l.body);
  }

  lemma InnerPass(p: seq<Block>, b: Builder, pack: bool, out1: Operand, in1: Operand, limit: Operand,
                  base: Datatype, blocklen: int, inStride: int, outStride: int, x: int, y: int, conf: Conf)
    returns (conf': Conf)
    requires Ok(b) && Le(VectorInner(b, pack, out1, in1, limit, base, blocklen, inStride, outStride).blocks, p)
    requires Head2(conf.regs, b.next, y, x) && Usable(conf.regs, limit, b.next)
    requires Runs(p, base, pack) && CountOk(base, blocklen) && blocklen <= INT32_MAX
    requires Ready(conf.mem, Along(RouteCopies(base, pack, blocklen), x, y))
    ensures var l := InnerLoop(b, pack, out1, in1, limit, base, blocklen, inStride, outStride);
      && Done(p, b.next, l.head, l.test, conf, conf', Along(RouteCopies(base, pack, blocklen), x, y))
      && l.body.next in conf'.regs && conf'.regs[l.body.next] == Wrap(y + outStride)
      && l.b1.next in conf'.regs && conf'.regs[l.b1.next] == Wrap(x + inStride)
      && l.b2.next in conf'.regs
      && conf'.regs[l.b2.next] ==
         (if (if pack then Wrap(y + outStride) else Wrap(x + inStride)) == Ev(conf.regs, limit) then 1 else 0)
  {
    hide Runs, Ready, Along, RouteCopies, Copy, Reaches, Le, Extends, Append, Bind, Emit, StartLoop, EndLoop,
         VectorInner, At, Heads, CanEndLoop, Done, Keeps;
    var l := InnerLoop(b, pack, out1, in1, limit, base, blocklen, inStride, outStride);
    InnerIsBuilt(p, b, pack, out1, in1, limit, base, blocklen, inStride, outStride);
    Earlier(p, l.b2, l.test); Earlier(p, l.b1, l.b2); Earlier(p, l.body, l.b1);
    var ts := Along(RouteCopies(base, pack, blocklen), x, y);
    var c0 := RunBase(p, base, pack, l.head, Reg(b.next + 1), Imm(blocklen), Reg(b.next), conf);
    Kept(p, l.head.next, l.head, l.body, conf, c0, ts, Reg(b.next));
    Kept(p, l.head.next, l.head, l.body, conf, c0, ts, Reg(b.next + 1));
    Kept(p, l.head.next, l.head, l.body, conf, c0, ts, limit);
    Weaken(p, l.head.next, b.next, l.head, l.body, conf, c0, ts);
    var c1 := ThenAdd(p, b.next, l.head, l.body, b.next, outStride, conf, c0, ts);
    var c2 := ThenAdd(p, b.next, l.head, l.b1, b.next + 1, inStride, conf, c1, ts);
    conf' := ThenTest(p, b.next, l.head, l.b2, if pack then Reg(l.body.next) else Reg(l.b1.next), limit, conf, c2, ts);
    WrapWrap(outStride, y); WrapWrap(inStride, x);
  }

  /** The exit test has no counter: the packed pointer meets the limit after exactly m passes,
      because m times the packed stride is less than the size of the address space. */
  lemma ExitTest(z: int, stride: int, m: nat)
    requires stride >= 1 && m >= 1 && Times(stride, m) < W
    ensures Wrap(z + stride) == Wrap(z + Times(stride, m)) <==> m == 1
  {
    assert Times(stride, 0) == 0 && Times(stride, m) == stride + Times(stride, m - 1);
    if m > 1 {
      assert Times(stride, m - 1) == stride + Times(stride, m - 2);
      if Wrap(z + stride) == Wrap(z + Times(stride, m)) { WrapInjective(z, stride, Times(stride, m)); }
    }
  }

  lemma LimitKept(z: int, stride: nat, m: nat)
    requires m >= 1
    ensures Wrap(Wrap(z + stride) + Times(stride, m - 1)) == Wrap(z + Times(stride, m))
    ensures Times(stride, m - 1) <= Times(stride, m)
  {
    WrapWrap(z + stride, Times(stride, m - 1));
  }

  /** With m blocks to go, the inner loop does m blocks and exits. */
  lemma InnerPasses(p: seq<Block>, b: Builder, pack: bool, out1: Operand, in1: Operand, limit: Operand,
                    base: Datatype, blocklen: int, inStride: int, outStride: int, m: nat, x: int, y: int, conf: Conf)
    returns (conf': Conf)
    requires Ok(b) && Le(VectorInner(b, pack, out1, in1, limit, base, blocklen, inStride, outStride).blocks, p)
    requires Head2(conf.regs, b.next, y, x) && Usable(conf.regs, limit, b.next)
    requires Runs(p, base, pack) && CountOk(base, blocklen) && blocklen <= INT32_MAX
    requires var packed := if pack then outStride else inStride;
      && packed >= 1 && m >= 1 && Times(packed, m) < W
      && Ev(conf.regs, limit) == Wrap((if pack then y else x) + Times(packed, m))
    requires Ready(conf.mem, Along(Laps(RouteCopies(base, pack, blocklen), outStride, inStride, m), x, y))
    ensures var l := InnerLoop(b, pack, out1, in1, limit, base, blocklen, inStride, outStride);
      Done(p, b.next, l.head, VectorInner(b, pack, out1, in1, limit, base, blocklen, inStride, outStride), conf, conf',
           Along(Laps(RouteCopies(base, pack, blocklen), outStride, inStride, m), x, y))
    decreases m
  {
    hide Runs, Ready, Along, Copy, Reaches, Le, Append, Bind, Emit, StartLoop, EndLoop, VectorInner, At,
         InnerLoop, Heads, CanEndLoop, Laps, RouteCopies, Times, Done, Keeps;
    var l := InnerLoop(b, pack, out1, in1, limit, base, blocklen, inStride, outStride);
    InnerIsBuilt(p, b, pack, out1, in1, limit, base, blocklen, inStride, outStride);
    var r := RouteCopies(base, pack, blocklen);
    var x1, y1 := Wrap(x + inStride), Wrap(y + outStride);
    var first, rest := Along(r, x, y), Along(Laps(r, outStride, inStride, m - 1), x1, y1);
    OneLap(r, outStride, inStride, m, x, y);
    ReadyParts(conf.mem, first, rest);
    var c1 := InnerPass(p, b, pack, out1, in1, limit, base, blocklen, inStride, outStride, x, y, conf);
    var packed, z := if pack then outStride else inStride, if pack then y else x;
    ExitTest(z, packed, m);
    LimitKept(z, packed, m);
    var nexts := [Reg(l.body.next), Reg(l.b1.next)];
    if m == 1 {
      conf' := c1;
      ThenExit(p, b.next, l.head, l.test, l.head.cur, l.test.cur, Reg(l.b2.next), nexts, conf, c1, first);
    } else {
      SetTwo(c1.regs, b.next, nexts[0], nexts[1]);
      var c2 := ThenRepeat(p, b.next, l.head, l.test, b.cur, Reg(l.b2.next), nexts, conf, c1, first);
      Kept(p, b.next, l.head, l.head, conf, c2, first, limit);
      DoneMemory(p, b.next, l.head, l.head, conf, c2, first);
      conf' := InnerPasses(p, b, pack, out1, in1, limit, base, blocklen, inStride, outStride, m - 1, x1, y1, c2);
      Around(p, b.next, l.head, VectorInner(b, pack, out1, in1, limit, base, blocklen, inStride, outStride),
             conf, c2, conf', first, rest);
    }
  }

  lemma InnerRuns(p: seq<Block>, b: Builder, pack: bool, out1: Operand, in1: Operand, limit: Operand,
                  base: Datatype, blocklen: int, inStride: int, outStride: int, m: nat, conf: Conf)
    returns (conf': Conf)
    requires Ok(b) && Le(VectorInner(b, pack, out1, in1, limit, base, blocklen, inStride, outStride).blocks, p)
    requires Args(conf.regs, b.next, in1, Imm(0), out1) && Usable(conf.regs, limit, b.next)
    requires Runs(p, base, pack) && CountOk(base, blocklen) && blocklen <= INT32_MAX
    requires var packed := if pack then outStride else inStride;
      && packed >= 1 && m >= 1 && Times(packed, m) < W
      && Ev(conf.regs, limit) == Wrap((if pack then Ev(conf.regs, out1) else Ev(conf.regs, in1)) + Times(packed, m))
    requires Ready(conf.mem, Along(Laps(RouteCopies(base, pack, blocklen), outStride, inStride, m),
                                   Ev(conf.regs, in1), Ev(conf.regs, out1)))
    ensures Done(p, b.next, b, VectorInner(b, pack, out1, in1, limit, base, blocklen, inStride, outStride), conf, conf',
                 Along(Laps(RouteCopies(base, pack, blocklen), outStride, inStride, m),
                       Ev(conf.regs, in1), Ev(conf.regs, out1)))
  {
    hide Runs, Ready, Along, Copy, Reaches, Le, Append, Bind, Emit, StartLoop, EndLoop, VectorInner, At,
         InnerLoop, Heads, CanEndLoop, Laps, RouteCopies, Times;
    var l := InnerLoop(b, pack, out1, in1, limit, base, blocklen, inStride, outStride);
    var x, y := Ev(conf.regs, in1), Ev(conf.regs, out1);
    InnerIsBuilt(p, b, pack, out1, in1, limit, base, blocklen, inStride, outStride);
    DoneNothing(p, b, conf);
    SetTwo(conf.regs, b.next, out1, in1);
    var c1 := ThenStartLoop(p, b.next, b, b, [out1, in1], conf, conf, []);
    conf' := InnerPasses(p, b, pack, out1, in1, limit, base, blocklen, inStride, outStride, m, x, y, c1);
    ThenLoop(p, b.next, b, l.head, VectorInner(b, pack, out1, in1, limit, base, blocklen, inStride, outStride),
             conf, c1, conf', Along(Laps(RouteCopies(base, pack, blocklen), outStride, inStride, m), x, y));
  }

  // ----- the outer loop -----

  /** The route of one item, as the two loops see it. */
  function Blocks(base: Datatype, pack: bool, blocklen: int, inStride: int, outStride: int, count: int): seq<Hop> {
    Laps(RouteCopies(base, pack, blocklen), outStride, inStride, count)
  }

  /** An item's packed increment is `count` packed strides, without wrapping. */
  ghost predicate Pitched(pack: bool, count: nat, inStride: int, outStride: int, inInc: int, outInc: int) {
    var packed := if pack then outStride else inStride;
    packed >= 1 && count >= 1 && (if pack then outInc else inInc) == Times(packed, count) < W
  }

  datatype Outer = Outer(head: Builder, limit: Builder, inner: Builder, b1: Builder, b2: Builder, test: Builder)

  function OuterLoop(b: Builder, pack: bool, inbuf: Operand, n: Operand, outbuf: Operand, base: Datatype,
                     blocklen: int, inStride: int, outStride: int, inInc: int, outInc: int): (l: Outer)
    requires Ok(b)
    ensures Ok(l.head) && l.head.next == b.next + 3 && l.head.cur == |b.blocks|
    ensures l.head.blocks[l.head.cur].instrs == []
    ensures Ok(l.limit) && l.limit.next == b.next + 4
  {
    var head := StartLoop(b, [outbuf, inbuf, Imm(0)]);
    var out1, in1 := Reg(b.next), Reg(b.next + 1);
    var limit := Bind(head, if pack then Add64(out1, Imm(outInc)) else Add64(in1, Imm(inInc)));
    var inner := VectorInner(limit, pack, out1, in1, Reg(head.next), base, blocklen, inStride, outStride);
    var b1 := Bind(inner, if pack then Add64(in1, Imm(inInc)) else Add64(out1, Imm(outInc)));
    var b2 := Bind(b1, Add32(Reg(b.next + 2), Imm(1)));
    Outer(head, limit, inner, b1, b2, Bind(b2, Equal(Reg(b1.next), n)))
  }

  function OuterNexts(pack: bool, l: Outer): (nexts: seq<Operand>)
    ensures |nexts| == 3
  {
    [if pack then Reg(l.head.next) else Reg(l.inner.next),
     if pack then Reg(l.inner.next) else Reg(l.head.next), Reg(l.b1.next)]
  }

  lemma OuterIsBuilt(p: seq<Block>, b: Builder, pack: bool, inbuf: Operand, n: Operand, outbuf: Operand, base: Datatype,
                     blocklen: int, inStride: int, outStride: int, inInc: int, outInc: int)
    requires Ok(b)
    requires Le(EmitVector(b, pack, inbuf, n, outbuf, base, blocklen, inStride, outStride, inInc, outInc).blocks, p)
    ensures var l := OuterLoop(b, pack, inbuf, n, outbuf, base, blocklen, inStride, outStride, inInc, outInc);
      && l.head == StartLoop(b, [outbuf, inbuf, Imm(0)])
      && Le(l.head.blocks, p) && Le(l.limit.blocks, p) && Le(l.inner.blocks, p) && Le(l.b1.blocks, p)
      && Le(l.b2.blocks, p) && Ok(l.test) && Le(l.test.blocks, p) && CanEndLoop(l.test, l.head.cur, OuterNexts(pack, l))
      && Heads(l.test, l.head.cur, b.cur, b.next, 3)
      && EmitVector(b, pack, inbuf, n, outbuf, base, blocklen, inStride, outStride, inInc, outInc)
         == EndLoop(l.test, l.head.cur, l.test.cur, Reg(l.b2.next), OuterNexts(pack, l))
  {
    hide Extends, Le, Append, StartLoop, VectorInner;
    var l := OuterLoop(b, pack, inbuf, n, outbuf, base, blocklen, inStride, outStride, inInc, outInc);
    ExtendsTransitive(l.head, l.limit, l.inner);
    ExtendsTransitive(l.head, l.inner, l.b1);
    ExtendsTransitive(l.head, l.b1, l.b2);
    ExtendsTransitive(l.head, l.b2, l.test);
    LoopExtends(b, [outbuf, inbuf, Imm(0)], l.test, l.test.cur, Reg(l.b2.next), OuterNexts(pack, l));
    BeforeEndLoop(p, l.test, l.head.cur, l.test.cur, Reg(l.b2.next), OuterNexts(pack, l));
    Earlier(p, l.b2, l.test); Earlier(p, l.b1, l.b2); Earlier(p, l.inner, l.b1);
    Earlier(p, l.limit, l.inner); Earlier(p, l.head, l.limit);
  }

  /** The inner loop leaves the limit and everything older alone. */
  lemma AfterInner(p: seq<Block>, k: nat, head: Builder, limit: Builder, inner: Builder, conf: Conf, c0: Conf, c1: Conf,
                   ts: seq<Transfer>, y: int, x: int, i: int, n: Operand)
    requires head.next == k + 3 && limit.next == k + 4
    requires Done(p, head.next, head, limit, conf, c0, []) && Done(p, limit.next, limit, inner, c0, c1, ts)
    requires Head3(conf.regs, k, y, x, i) && Usable(conf.regs, n, k) && head.next in c0.regs
    ensures Done(p, k, head, inner, conf, c1, ts) && Head3(c1.regs, k, y, x, i)
    ensures Usable(c1.regs, n, k) && Ev(c1.regs, n) == Ev(conf.regs, n)
    ensures head.next in c1.regs && c1.regs[head.next] == c0.regs[head.next] && limit.next <= inner.next
  {
    hide Done, Keeps;
    Kept(p, limit.next, limit, inner, c0, c1, ts, Reg(head.next));
    ThenMoves(p, head.next, head, limit, inner, conf, c0, c1, ts);
    Kept(p, head.next, head, inner, conf, c1, ts, Reg(k)); Kept(p, head.next, head, inner, conf, c1, ts, Reg(k + 1));
    Kept(p, head.next, head, inner, conf, c1, ts, Reg(k + 2)); Kept(p, head.next, head, inner, conf, c1, ts, n);
    Weaken(p, head.next, k, head, inner, conf, c1, ts);
  }

  lemma OuterPass(p: seq<Block>, b: Builder, pack: bool, inbuf: Operand, n: Operand, outbuf: Operand, base: Datatype,
                  blocklen: int, inStride: int, outStride: int, inInc: int, outInc: int, count: nat,
                  x: int, y: int, i: int, conf: Conf)
    returns (conf': Conf)
    requires Ok(b)
    requires Le(EmitVector(b, pack, inbuf, n, outbuf, base, blocklen, inStride, outStride, inInc, outInc).blocks, p)
    requires Head3(conf.regs, b.next, y, x, i) && Usable(conf.regs, n, b.next)
    requires Runs(p, base, pack) && CountOk(base, blocklen) && blocklen <= INT32_MAX
    requires Pitched(pack, count, inStride, outStride, inInc, outInc)
    requires Ready(conf.mem, Along(Blocks(base, pack, blocklen, inStride, outStride, count), x, y))
    ensures var l := OuterLoop(b, pack, inbuf, n, outbuf, base, blocklen, inStride, outStride, inInc, outInc);
      && Done(p, b.next, l.head, l.test, conf, conf',
              Along(Blocks(base, pack, blocklen, inStride, outStride, count), x, y))
      && AllDef(conf'.regs, OuterNexts(pack, l))
      && Ev(conf'.regs, OuterNexts(pack, l)[0]) == Wrap(y + outInc)
      && Ev(conf'.regs, OuterNexts(pack, l)[1]) == Wrap(x + inInc)
      && Ev(conf'.regs, OuterNexts(pack, l)[2]) == Wrap32(i + 1)
      && l.b2.next in conf'.regs && conf'.regs[l.b2.next] == (if Wrap32(i + 1) == Ev(conf.regs, n) then 1 else 0)
  {
    hide Runs, Ready, Along, RouteCopies, Laps, Copy, Reaches, Le, Extends, Append, Bind, StartLoop, EndLoop,
         VectorInner, EmitVector, At, Heads, CanEndLoop, Times, Done, Keeps;
    var l := OuterLoop(b, pack, inbuf, n, outbuf, base, blocklen, inStride, outStride, inInc, outInc);
    OuterIsBuilt(p, b, pack, inbuf, n, outbuf, base, blocklen, inStride, outStride, inInc, outInc);
    var out1, in1 := Reg(b.next), Reg(b.next + 1);
    var ts := Along(Blocks(base, pack, blocklen, inStride, outStride, count), x, y);
    DoneNothing(p, l.head, conf);
    var c0 := ThenAdd(p, l.head.next, l.head, l.head, if pack then b.next else b.next + 1,
                      if pack then outInc else inInc, conf, conf, []);
    var c1 := InnerRuns(p, l.limit, pack, out1, in1, Reg(l.head.next), base, blocklen, inStride, outStride, count, c0);
    AfterInner(p, b.next, l.head, l.limit, l.inner, conf, c0, c1, ts, y, x, i, n);
    var c2 := ThenAdd(p, b.next, l.head, l.inner, if pack then b.next + 1 else b.next, if pack then inInc else outInc,
                      conf, c1, ts);
    var c3 := ThenCount(p, b.next, l.head, l.b1, b.next + 2, conf, c2, ts);
    conf' := ThenTest(p, b.next, l.head, l.b2, Reg(l.b1.next), n, conf, c3, ts);
  }

  lemma OuterPasses(p: seq<Block>, b: Builder, pack: bool, inbuf: Operand, n: Operand, outbuf: Operand, base: Datatype,
                    blocklen: int, inStride: int, outStride: int, inInc: int, outInc: int, count: nat,
                    m: nat, x: int, y: int, conf: Conf)
    returns (conf': Conf)
    requires Ok(b)
    requires Le(EmitVector(b, pack, inbuf, n, outbuf, base, blocklen, inStride, outStride, inInc, outInc).blocks, p)
    requires Usable(conf.regs, n, b.next) && 1 <= m <= Ev(conf.regs, n) < W32
    requires Head3(conf.regs, b.next, y, x, Ev(conf.regs, n) - m)
    requires Runs(p, base, pack) && CountOk(base, blocklen) && blocklen <= INT32_MAX
    requires Pitched(pack, count, inStride, outStride, inInc, outInc)
    requires Ready(conf.mem, Along(Laps(Blocks(base, pack, blocklen, inStride, outStride, count), outInc, inInc, m),
                                   x, y))
    ensures var l := OuterLoop(b, pack, inbuf, n, outbuf, base, blocklen, inStride, outStride, inInc, outInc);
      Done(p, b.next, l.head, EmitVector(b, pack, inbuf, n, outbuf, base, blocklen, inStride, outStride, inInc, outInc),
           conf, conf', Along(Laps(Blocks(base, pack, blocklen, inStride, outStride, count), outInc, inInc, m), x, y))
    decreases m
  {
    hide Runs, Ready, Along, Laps, RouteCopies, Blocks, Copy, Reaches, Le, Append, Bind, StartLoop, EndLoop,
         EmitVector, OuterLoop, At, Heads, CanEndLoop, Times, Pitched;
    var l := OuterLoop(b, pack, inbuf, n, outbuf, base, blocklen, inStride, outStride, inInc, outInc);
    OuterIsBuilt(p, b, pack, inbuf, n, outbuf, base, blocklen, inStride, outStride, inInc, outInc);
    var r := Blocks(base, pack, blocklen, inStride, outStride, count);
    var x1, y1 := Wrap(x + inInc), Wrap(y + outInc);
    var first, rest := Along(r, x, y), Along(Laps(r, outInc, inInc, m - 1), x1, y1);
    OneLap(r, outInc, inInc, m, x, y);
    ReadyParts(conf.mem, first, rest);
    var c1 := OuterPass(p, b, pack, inbuf, n, outbuf, base, blocklen, inStride, outStride, inInc, outInc,
                        count, x, y, Ev(conf.regs, n) - m, conf);
    var nexts := OuterNexts(pack, l);
    if m == 1 {
      conf' := c1;
      ThenExit(p, b.next, l.head, l.test, l.head.cur, l.test.cur, Reg(l.b2.next), nexts, conf, c1, first);
    } else {
      SetThree(c1.regs, b.next, nexts[0], nexts[1], nexts[2]);
      var c2 := ThenRepeat(p, b.next, l.head, l.test, b.cur, Reg(l.b2.next), nexts, conf, c1, first);
      conf' := OuterPasses(p, b, pack, inbuf, n, outbuf, base, blocklen, inStride, outStride, inInc, outInc,
                           count, m - 1, x1, y1, c2);
      Around(p, b.next, l.head, EmitVector(b, pack, inbuf, n, outbuf, base, blocklen, inStride, outStride, inInc,
                                           outInc),
             conf, c2, conf', first, rest);
    }
  }

  /** Both loops: n items of `count` blocks, whatever the two strides on the data side. */
  lemma VectorRuns(p: seq<Block>, b: Builder, pack: bool, inbuf: Operand, n: Operand, outbuf: Operand, base: Datatype,
                   blocklen: int, inStride: int, outStride: int, inInc: int, outInc: int, count: nat, conf: Conf)
    returns (conf': Conf)
    requires Ok(b)
    requires Le(EmitVector(b, pack, inbuf, n, outbuf, base, blocklen, inStride, outStride, inInc, outInc).blocks, p)
    requires Args(conf.regs, b.next, inbuf, n, outbuf) && Ev(conf.regs, n) >= 1
    requires Runs(p, base, pack) && CountOk(base, blocklen) && blocklen <= INT32_MAX
    requires Pitched(pack, count, inStride, outStride, inInc, outInc)
    requires Ready(conf.mem, Along(Laps(Blocks(base, pack, blocklen, inStride, outStride, count), outInc, inInc,
                                        Ev(conf.regs, n)), Ev(conf.regs, inbuf), Ev(conf.regs, outbuf)))
    ensures Done(p, b.next, b,
                 EmitVector(b, pack, inbuf, n, outbuf, base, blocklen, inStride, outStride, inInc, outInc), conf, conf',
                 Along(Laps(Blocks(base, pack, blocklen, inStride, outStride, count), outInc, inInc,
                            Ev(conf.regs, n)), Ev(conf.regs, inbuf), Ev(conf.regs, outbuf)))
  {
    hide Runs, Ready, Along, Laps, RouteCopies, Blocks, Copy, Reaches, Le, Append, Bind, StartLoop, EndLoop,
         EmitVector, OuterLoop, At, Heads, CanEndLoop, Times, Pitched;
    var l := OuterLoop(b, pack, inbuf, n, outbuf, base, blocklen, inStride, outStride, inInc, outInc);
    var x, y, total := Ev(conf.regs, inbuf), Ev(conf.regs, outbuf), Ev(conf.regs, n);
    OuterIsBuilt(p, b, pack, inbuf, n, outbuf, base, blocklen, inStride, outStride, inInc, outInc);
    DoneNothing(p, b, conf);
    SetThree(conf.regs, b.next, outbuf, inbuf, Imm(0));
    var c1 := ThenStartLoop(p, b.next, b, b, [outbuf, inbuf, Imm(0)], conf, conf, []);
    conf' := OuterPasses(p, b, pack, inbuf, n, outbuf, base, blocklen, inStride, outStride, inInc, outInc,
                         count, total, x, y, c1);
    ThenLoop(p, b.next, b, l.head,
             EmitVector(b, pack, inbuf, n, outbuf, base, blocklen, inStride, outStride, inInc, outInc),
             conf, c1, conf', Along(Laps(Blocks(base, pack, blocklen, inStride, outStride, count), outInc, inInc,
                                         total), x, y));
  }
}
