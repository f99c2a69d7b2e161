/** Running the code of codegenPrimitiveResized: one memcpy for each item. */
module ExecResized {
  import opened Datatypes
  import opened Wellformed
  import opened Machine
  import opened Builders
  import opened Transfers
  import opened Emission
  import opened Routes
  import opened ExecPrimitive
  import opened Execution
  import opened Calls

  lemma DenseMoves(n: nat, inbuf: int, outbuf: int)
    ensures Along(Dense(n), inbuf, outbuf) == Bytes(n, inbuf, outbuf)
  {}

  datatype Resize = Resize(head: Builder, copied: Builder, b1: Builder, b2: Builder, b3: Builder, test: Builder)

  function ResizedLoop(b: Builder, inbuf: Operand, n: Operand, outbuf: Operand, size: int, extent: int): (l: Resize)
    requires Ok(b)
    ensures Ok(l.head) && l.head.next == b.next + 3 && l.head.cur == |b.blocks|
    ensures l.head.blocks[l.head.cur].instrs == []
    ensures Ok(l.copied) && l.copied.next == b.next + 3 && l.b1.next == b.next + 4 && l.b2.next == b.next + 5
  {
    var head := StartLoop(b, [inbuf, outbuf, n]);
    var copied := Append(head, MemCpy(Reg(b.next + 1), Reg(b.next), Imm(size)));
    var b1 := Bind(copied, Add64(Reg(b.next), Imm(extent)));
    var b2 := Bind(b1, Add64(Reg(b.next + 1), Imm(size)));
    var b3 := Bind(b2, Sub32(Reg(b.next + 2), Imm(1)));
    Resize(head, copied, b1, b2, b3, Bind(b3, Equal(Reg(b2.next), Imm(0))))
  }

  lemma ResizedIsBuilt(p: seq<Block>, b: Builder, inbuf: Operand, n: Operand, outbuf: Operand, size: int, extent: int)
    requires Ok(b) && Le(EmitPrimitiveResized(b, inbuf, n, outbuf, size, extent).blocks, p)
    ensures var l := ResizedLoop(b, inbuf, n, outbuf, size, extent);
      var nexts := [Reg(l.copied.next), Reg(l.b1.next), Reg(l.b2.next)];
      && Le(l.head.blocks, p) && Le(l.copied.blocks, p) && Le(l.b1.blocks, p) && Le(l.b2.blocks, p)
      && Le(l.b3.blocks, p) && Ok(l.test) && Le(l.test.blocks, p)
      && CanEndLoop(l.test, l.head.cur, nexts) && Heads(l.test, l.head.cur, b.cur, b.next, 3)
      && EmitPrimitiveResized(b, inbuf, n, outbuf, size, extent)
         == EndLoop(l.test, l.head.cur, l.test.cur, Reg(l.b3.next), nexts)
  {
    hide Le;
    var l := ResizedLoop(b, inbuf, n, outbuf, size, extent);
    var nexts := [Reg(l.copied.next), Reg(l.b1.next), Reg(l.b2.next)];
    LoopExtends(b, [inbuf, outbuf, n], l.test, l.test.cur, Reg(l.b3.next), nexts);
    BeforeEndLoop(p, l.test, l.head.cur, l.test.cur, Reg(l.b3.next), nexts);
    Earlier(p, l.b3, l.test); Earlier(p, l.b2, l.b3); Earlier(p, l.b1, l.b2); Earlier(p, l.copied, l.b1);
    Earlier(p, l.head, l.copied);
  }

  lemma ResizedPass(p: seq<Block>, b: Builder, inbuf: Operand, n: Operand, outbuf: Operand, size: nat, extent: int,
                    x: int, y: int, i: int, conf: Conf)
    returns (conf': Conf)
    requires Ok(b) && Le(EmitPrimitiveResized(b, inbuf, n, outbuf, size, extent).blocks, p)
    requires Head3(conf.regs, b.next, x, y, i) && size < W
    requires Ready(conf.mem, Bytes(size, x, y))
    ensures var l := ResizedLoop(b, inbuf, n, outbuf, size, extent);
      && Done(p, b.next, l.head, l.test, conf, conf', Bytes(size, x, y))
      && l.copied.next in conf'.regs && conf'.regs[l.copied.next] == Wrap(x + extent)
      && l.b1.next in conf'.regs && conf'.regs[l.b1.next] == Wrap(y + size)
      && l.b2.next in conf'.regs && conf'.regs[l.b2.next] == Wrap32(i - 1)
      && l.b3.next in conf'.regs && conf'.regs[l.b3.next] == (if i == 1 then 1 else 0)
  {
    hide Ready, Bytes, Copy, Reaches, Le, Extends, Append, Bind, StartLoop, EndLoop, EmitPrimitiveResized, At, Heads,
         CanEndLoop, Done, Keeps;
    var l := ResizedLoop(b, inbuf, n, outbuf, size, extent);
    ResizedIsBuilt(p, b, inbuf, n, outbuf, size, extent);
    var ts := Bytes(size, x, y);
    ItemCopied(p, l.head, b.next, size, x, y, conf);
    var c0 := conf.(mem := Copy(conf.mem, ts));
    var c1 := ThenAdd(p, b.next, l.head, l.copied, b.next, extent, conf, c0, ts);
    var c2 := ThenAdd(p, b.next, l.head, l.b1, b.next + 1, size, conf, c1, ts);
    var c3 := ThenLet(p, b.next, l.head, l.b2, Sub32(Reg(b.next + 2), Imm(1)), conf, c2, ts);
    conf' := ThenTest(p, b.next, l.head, l.b3, Reg(l.b2.next), Imm(0), conf, c3, ts);
    WrapWrap(extent, x); WrapWrap(size, y);
  }

  /** The memcpy of one item between the two pointers in registers k and k + 1. */
  lemma ItemCopied(p: seq<Block>, head: Builder, k: nat, size: nat, x: int, y: int, conf: Conf)
    requires Ok(head) && head.next == k + 3 && size < W
    requires Le(Append(head, MemCpy(Reg(k + 1), Reg(k), Imm(size))).blocks, p)
    requires Head2(conf.regs, k, x, y) && Ready(conf.mem, Bytes(size, x, y))
    ensures Done(p, k, head, Append(head, MemCpy(Reg(k + 1), Reg(k), Imm(size))), conf,
                 conf.(mem := Copy(conf.mem, Bytes(size, x, y))), Bytes(size, x, y))
  {
    hide Ready, Bytes, Copy, Reaches, Le, Extends, Append;
    var copy := MemCpy(Reg(k + 1), Reg(k), Imm(size));
    TransferRuns(conf, Reg(k + 1), Reg(k), size, false);
    assert Exec(copy, conf) == (true, conf.(mem := Copy(conf.mem, Bytes(size, x, y))));
    AppendRuns(p, head, copy, conf);
  }

  lemma ResizedPasses(p: seq<Block>, b: Builder, inbuf: Operand, n: Operand, outbuf: Operand, size: nat, extent: int,
                      m: nat, x: int, y: int, conf: Conf)
    returns (conf': Conf)
    requires Ok(b) && Le(EmitPrimitiveResized(b, inbuf, n, outbuf, size, extent).blocks, p)
    requires Head3(conf.regs, b.next, x, y, m) && m >= 1 && size < W
    requires Ready(conf.mem, Along(Laps(Dense(size), size, extent, m), x, y))
    ensures var l := ResizedLoop(b, inbuf, n, outbuf, size, extent);
      Done(p, b.next, l.head, EmitPrimitiveResized(b, inbuf, n, outbuf, size, extent), conf, conf',
           Along(Laps(Dense(size), size, extent, m), x, y))
    decreases m
  {
    hide Ready, Along, Laps, Dense, Copy, Reaches, Le, Extends, Append, Bind, StartLoop, EndLoop, EmitPrimitiveResized,
         ResizedLoop, At, Heads, CanEndLoop;
    var l := ResizedLoop(b, inbuf, n, outbuf, size, extent);
    ResizedIsBuilt(p, b, inbuf, n, outbuf, size, extent);
    var x1, y1 := Wrap(x + extent), Wrap(y + size);
    var first, rest := Bytes(size, x, y), Along(Laps(Dense(size), size, extent, m - 1), x1, y1);
    OneLap(Dense(size), size, extent, m, x, y);
    DenseMoves(size, x, y);
    ReadyParts(conf.mem, first, rest);
    assert Wrap32(m - 1) == m - 1;
    var c1 := ResizedPass(p, b, inbuf, n, outbuf, size, extent, x, y, m, conf);
    var nexts := [Reg(l.copied.next), Reg(l.b1.next), Reg(l.b2.next)];
    if m == 1 {
      conf' := c1;
      ThenExit(p, b.next, l.head, l.test, l.head.cur, l.test.cur, Reg(l.b3.next), nexts, conf, c1, first);
    } else {
      SetThree(c1.regs, b.next, nexts[0], nexts[1], nexts[2]);
      var c2 := ThenRepeat(p, b.next, l.head, l.test, b.cur, Reg(l.b3.next), nexts, conf, c1, first);
      conf' := ResizedPasses(p, b, inbuf, n, outbuf, size, extent, m - 1, x1, y1, c2);
      Around(p, b.next, l.head, EmitPrimitiveResized(b, inbuf, n, outbuf, size, extent), conf, c2, conf', first, rest);
    }
  }

  lemma PrimitiveResizedRuns(p: seq<Block>, b: Builder, inbuf: Operand, n: Operand, outbuf: Operand, size: nat,
                             extent: int, conf: Conf)
    returns (conf': Conf)
    requires Ok(b) && Le(EmitPrimitiveResized(b, inbuf, n, outbuf, size, extent).blocks, p) && size < W
    requires Args(conf.regs, b.next, inbuf, n, outbuf) && Ev(conf.regs, n) >= 1
    requires Ready(conf.mem, Along(Laps(Dense(size), size, extent, Ev(conf.regs, n)),
                                   Ev(conf.regs, inbuf), Ev(conf.regs, outbuf)))
    ensures Done(p, b.next, b, EmitPrimitiveResized(b, inbuf, n, outbuf, size, extent), conf, conf',
                 Along(Laps(Dense(size), size, extent, Ev(conf.regs, n)), Ev(conf.regs, inbuf), Ev(conf.regs, outbuf)))
  {
    hide Ready, Along, Laps, Dense, Copy, Reaches, Le, Append, Bind, StartLoop, EndLoop, EmitPrimitiveResized, At,
         Heads, CanEndLoop;
    var l := ResizedLoop(b, inbuf, n, outbuf, size, extent);
    var x, y, total := Ev(conf.regs, inbuf), Ev(conf.regs, outbuf), Ev(conf.regs, n);
    ResizedIsBuilt(p, b, inbuf, n, outbuf, size, extent);
    DoneNothing(p, b, conf);
    SetThree(conf.regs, b.next, inbuf, outbuf, n);
    var c1 := ThenStartLoop(p, b.next, b, b, [inbuf, outbuf, n], conf, conf, []);
    conf' := ResizedPasses(p, b, inbuf, n, outbuf, size, extent, total, x, y, c1);
    ThenLoop(p, b.next, b, l.head, EmitPrimitiveResized(b, inbuf, n, outbuf, size, extent), conf, c1, conf',
             Along(Laps(Dense(size), size, extent, total), x, y));
  }
}
