/** Running the code of codegen_primitive.cpp copies count * size bytes, each exactly once. */
module ExecPrimitive {
  import opened Arithmetic
  import opened Machine
  import opened Builders
  import opened Transfers
  import opened Emission

  /** Registers below k keep their values. */
  ghost predicate Keeps(before: Registers, after: Registers, k: nat) {
    forall r :: 0 <= r < k && r in before ==> r in after && after[r] == before[r]
  }

  /** o is defined and was emitted before register k. */
  predicate Usable(regs: Registers, o: Operand, k: nat) {
    Def(regs, o) && (o.Reg? ==> o.id < k)
  }

  /** A program that contains what was emitted later contains what was emitted before. */
  lemma Earlier(p: seq<Block>, b: Builder, r: Builder)
    requires Extends(b, r) && Le(r.blocks, p)
    ensures Le(b.blocks, p)
  {
    ExtendsLe(b, r);
    LeTransitive(b.blocks, r.blocks, p);
  }

  lemma BeforeEndLoop(p: seq<Block>, b: Builder, loop: nat, latch: nat, cond: Operand, nexts: seq<Operand>)
    requires CanEndLoop(b, loop, nexts) && Le(EndLoop(b, loop, latch, cond, nexts).blocks, p)
    ensures Le(b.blocks, p)
  {
    EndLoopLe(b, loop, latch, cond, nexts);
    LeTransitive(b.blocks, EndLoop(b, loop, latch, cond, nexts).blocks, p);
  }

  lemma TransferRuns(c: Conf, to: Operand, from: Operand, n: nat, mayOverlap: bool)
    requires Def(c.regs, to) && Def(c.regs, from)
    requires Ready(c.mem, Bytes(n, Ev(c.regs, from), Ev(c.regs, to)))
    ensures ExecTransfer(c, to, from, n, mayOverlap)
         == (true, c.(mem := Copy(c.mem, Bytes(n, Ev(c.regs, from), Ev(c.regs, to)))))
  {
    RunFootprint(true, c.mem, n, Ev(c.regs, from), Ev(c.regs, to));
    RunIsCopied(true, c.mem, n, Ev(c.regs, from), Ev(c.regs, to));
  }

  /** The code from c to r copies n bytes at the two pointers and advances both by n. */
  ghost predicate Copied(p: seq<Block>, c: Cursor, r: Cursor, n: nat, conf: Conf, conf': Conf) {
    && Ok(c.b) && Ok(r.b) && c.b.next <= r.b.next
    && Usable(conf.regs, c.inbuf, c.b.next) && Usable(conf.regs, c.outbuf, c.b.next)
    && Reaches(p, At(c.b, conf), At(r.b, conf'))
    && Keeps(conf.regs, conf'.regs, c.b.next)
    && Usable(conf'.regs, r.inbuf, r.b.next) && Usable(conf'.regs, r.outbuf, r.b.next)
    && Ev(conf'.regs, r.inbuf) == Wrap(Ev(conf.regs, c.inbuf) + n)
    && Ev(conf'.regs, r.outbuf) == Wrap(Ev(conf.regs, c.outbuf) + n)
    && conf'.mem == Copy(conf.mem, Bytes(n, Ev(conf.regs, c.inbuf), Ev(conf.regs, c.outbuf)))
  }

  /** The pointers are ready for n more bytes. */
  ghost predicate CanCopy(c: Cursor, n: nat, conf: Conf) {
    && Ok(c.b)
    && Usable(conf.regs, c.inbuf, c.b.next) && Usable(conf.regs, c.outbuf, c.b.next)
    && 0 <= Ev(conf.regs, c.inbuf) < W && 0 <= Ev(conf.regs, c.outbuf) < W
    && Ready(conf.mem, Bytes(n, Ev(conf.regs, c.inbuf), Ev(conf.regs, c.outbuf)))
  }

  lemma CopiedNothing(p: seq<Block>, c: Cursor, conf: Conf)
    requires CanCopy(c, 0, conf)
    ensures Copied(p, c, c, 0, conf, conf)
  {
    assert Run(p, At(c.b, conf), 0) == At(c.b, conf);
    assert Bytes(0, Ev(conf.regs, c.inbuf), Ev(conf.regs, c.outbuf)) == [];
  }

  lemma CanCopyFirst(c: Cursor, m: nat, n: nat, conf: Conf)
    requires CanCopy(c, m + n, conf)
    ensures CanCopy(c, m, conf)
  {
    var i, o := Ev(conf.regs, c.inbuf), Ev(conf.regs, c.outbuf);
    BytesSplit(m, n, i, o);
    ReadyParts(conf.mem, Bytes(m, i, o), Bytes(n, Wrap(i + m), Wrap(o + m)));
  }

  lemma CanCopyRest(p: seq<Block>, c: Cursor, d: Cursor, m: nat, n: nat, conf: Conf, conf1: Conf)
    requires CanCopy(c, m + n, conf) && Copied(p, c, d, m, conf, conf1)
    ensures CanCopy(d, n, conf1)
  {
    var i, o := Ev(conf.regs, c.inbuf), Ev(conf.regs, c.outbuf);
    BytesSplit(m, n, i, o);
    ReadyParts(conf.mem, Bytes(m, i, o), Bytes(n, Wrap(i + m), Wrap(o + m)));
  }

  lemma CopiedTwice(p: seq<Block>, c: Cursor, d: Cursor, r: Cursor, m: nat, n: nat, conf: Conf, conf1: Conf,
                    conf2: Conf)
    requires Copied(p, c, d, m, conf, conf1) && Copied(p, d, r, n, conf1, conf2)
    ensures Copied(p, c, r, m + n, conf, conf2)
  {
    hide Bytes, Copy, Reaches, At;
    var i, o := Ev(conf.regs, c.inbuf), Ev(conf.regs, c.outbuf);
    BytesSplit(m, n, i, o);
    CopyConcat(conf.mem, Bytes(m, i, o), Bytes(n, Wrap(i + m), Wrap(o + m)));
    Chain(p, At(c.b, conf), At(d.b, conf1), At(r.b, conf2));
    WrapWrap(i + m, n);
    WrapWrap(o + m, n);
  }

  /** One pointer increment. */
  lemma BumpRuns(p: seq<Block>, s: State, b: Builder, o: Operand, bytes: nat, conf: Conf) returns (conf': Conf)
    requires Ok(b) && Le(Bind(b, Add64(o, Imm(bytes))).blocks, p) && Def(conf.regs, o) && Reaches(p, s, At(b, conf))
    ensures Reaches(p, s, At(Bind(b, Add64(o, Imm(bytes))), conf'))
    ensures conf' == conf.(regs := conf.regs[b.next := Wrap(Ev(conf.regs, o) + bytes)])
  {
    hide Le, Bind, Reaches;
    var e := Add64(o, Imm(bytes));
    BindRuns(p, b, e, conf);
    conf' := conf.(regs := conf.regs[b.next := Value(conf.regs, e)]);
    Chain(p, s, At(b, conf), At(Bind(b, e), conf'));
    WrapWrap(bytes, Ev(conf.regs, o));
  }

  /** One vector move and the two increments. */
  lemma MoveRuns(p: seq<Block>, c: Cursor, bytes: nat, conf: Conf) returns (conf': Conf)
    requires CanCopy(c, bytes, conf) && Le(UnrollMoves(c, bytes, 1).b.blocks, p)
    ensures Copied(p, c, UnrollMoves(c, bytes, 1), bytes, conf, conf')
  {
    var b1 := Append(c.b, VMove(c.outbuf, c.inbuf, bytes));
    var b2 := Bind(b1, Add64(c.inbuf, Imm(bytes)));
    var b3 := Bind(b2, Add64(c.outbuf, Imm(bytes)));
    assert UnrollMoves(c, bytes, 1) == Cursor(b3, Reg(b1.next), Reg(b2.next));
    hide UnrollMoves, Ready, Bytes, Le, Extends, Append, Bind, Reaches, Copy, Wrap;
    Earlier(p, b2, b3);
    Earlier(p, b1, b2);
    TransferRuns(conf, c.outbuf, c.inbuf, bytes, true);
    AppendRuns(p, c.b, VMove(c.outbuf, c.inbuf, bytes), conf);
    var conf1 := Exec(VMove(c.outbuf, c.inbuf, bytes), conf).1;
    var conf2 := BumpRuns(p, At(c.b, conf), b1, c.inbuf, bytes, conf1);
    conf' := BumpRuns(p, At(c.b, conf), b2, c.outbuf, bytes, conf2);
  }

  lemma UnrollFirst(c: Cursor, bytes: nat, n: nat)
    requires Ok(c.b)
    ensures n == 0 ==> UnrollMoves(c, bytes, n) == c && Times(bytes, n) == 0
    ensures n > 0 ==> UnrollMoves(c, bytes, n) == UnrollMoves(UnrollMoves(c, bytes, 1), bytes, n - 1)
    ensures n > 0 ==> Times(bytes, n) == bytes + Times(bytes, n - 1)
  {
    if n > 0 {
      var b1 := Append(c.b, VMove(c.outbuf, c.inbuf, bytes));
      var b2 := Bind(b1, Add64(c.inbuf, Imm(bytes)));
      var b3 := Bind(b2, Add64(c.outbuf, Imm(bytes)));
      var d := Cursor(b3, Reg(b1.next), Reg(b2.next));
      assert UnrollMoves(d, bytes, 0) == d;
    }
  }

  function Times(bytes: nat, n: nat): nat
    decreases n, bytes
  {
    if n == 0 then 0 else bytes + Times(bytes, n - 1)
  }

  lemma {:induction false} TimesIsProduct(bytes: nat, n: nat)
    ensures Times(bytes, n) == n * bytes
  {
    if n > 0 {
      TimesIsProduct(bytes, n - 1);
      MulDistributes(n, 1, bytes);
    }
  }

  lemma {:induction false} UnrollRuns(p: seq<Block>, c: Cursor, bytes: nat, n: nat, conf: Conf) returns (conf': Conf)
    requires Ok(c.b) && CanCopy(c, Times(bytes, n), conf) && Le(UnrollMoves(c, bytes, n).b.blocks, p)
    ensures Copied(p, c, UnrollMoves(c, bytes, n), Times(bytes, n), conf, conf')
    decreases n
  {
    hide *;
    UnrollFirst(c, bytes, n);
    if n == 0 {
      conf' := conf;
      CopiedNothing(p, c, conf);
    } else {
      var d := UnrollMoves(c, bytes, 1);
      Earlier(p, d.b, UnrollMoves(d, bytes, n - 1).b);
      CanCopyFirst(c, bytes, Times(bytes, n - 1), conf);
      var conf1 := MoveRuns(p, c, bytes, conf);
      CanCopyRest(p, c, d, bytes, Times(bytes, n - 1), conf, conf1);
      conf' := UnrollRuns(p, d, bytes, n - 1, conf1);
      CopiedTwice(p, c, d, UnrollMoves(d, bytes, n - 1), bytes, Times(bytes, n - 1), conf, conf1, conf');
    }
  }

  /** Bytes moved by the postamble: vectors of halving size. */
  function PostambleBytes(size: nat, n: nat, vecsize: nat): nat
    decreases vecsize, n
  {
    if vecsize == 0 then 0
    else Times(Product(size, vecsize), Quotient(n, vecsize)) + PostambleBytes(size, Remainder(n, vecsize), vecsize / 2)
  }

  /** The halving sizes end with one, so nothing is left behind. */
  lemma {:induction false} PostambleMovesAll(size: nat, n: nat, vecsize: nat)
    requires vecsize >= 1 || n == 0
    ensures PostambleBytes(size, n, vecsize) == n * size
    decreases vecsize
  {
    if vecsize > 0 {
      hide Product, Quotient, Remainder, Times;
      PostambleMovesAll(size, Remainder(n, vecsize), vecsize / 2);
      TimesIsProduct(Product(size, vecsize), Quotient(n, vecsize));
      DivModBytes(n, vecsize, size);
    }
  }

  lemma DivModBytes(n: nat, v: nat, size: nat)
    requires v >= 1
    ensures n * size == Quotient(n, v) * Product(size, v) + Remainder(n, v) * size
  {
    assert n == (n / v) * v + n % v;
    MulDistributes((n / v) * v, n % v, size);
    MulAssoc(n / v, v, size);
  }

  lemma {:induction false} PostambleRuns(p: seq<Block>, c: Cursor, size: nat, n: nat, vecsize: nat, conf: Conf)
    returns (conf': Conf)
    requires CanCopy(c, PostambleBytes(size, n, vecsize), conf)
    requires Le(Postamble(c, size, n, vecsize).b.blocks, p)
    ensures Copied(p, c, Postamble(c, size, n, vecsize), PostambleBytes(size, n, vecsize), conf, conf')
    decreases vecsize
  {
    assert Ok(c.b);
    if vecsize == 0 {
      conf' := conf;
      CopiedNothing(p, c, conf);
    } else {
      hide Copied, CanCopy, UnrollMoves, Extends, Ok, Le, Product, Quotient, Remainder, Times;
      var d := UnrollMoves(c, Product(size, vecsize), Quotient(n, vecsize));
      var r := Postamble(d, size, Remainder(n, vecsize), vecsize / 2);
      var first, rest := Times(Product(size, vecsize), Quotient(n, vecsize)),
          PostambleBytes(size, Remainder(n, vecsize), vecsize / 2);
      Earlier(p, d.b, r.b);
      CanCopyFirst(c, first, rest, conf);
      var conf1 := UnrollRuns(p, c, Product(size, vecsize), Quotient(n, vecsize), conf);
      CanCopyRest(p, c, d, first, rest, conf, conf1);
      conf' := PostambleRuns(p, d, size, Remainder(n, vecsize), vecsize / 2, conf1);
      CopiedTwice(p, c, d, r, first, rest, conf, conf1, conf');
    }
  }

  // ----- the copy loop -----

  const PASS: nat := 256   // COPY_LOOP_UNROLL vectors of SIMD_BYTES bytes

  /** The blocks of the copy loop: its head, the end of the 16 moves, and the exit test. */
  datatype CopyLoopParts = CopyLoopParts(start: Builder, head: Builder, moved: Cursor, test: Builder)

  function LoopParts(b: Builder, inbuf: Operand, outbuf: Operand, vectors: nat): (r: CopyLoopParts)
    requires Ok(b)
    ensures Ok(r.head) && Ok(r.moved.b) && Ok(r.test)
  {
    var b1 := Bind(b, Add64(inbuf, Imm(vectors * SIMD_BYTES)));
    var b2 := StartLoop(b1, [inbuf, outbuf]);
    var c := UnrollMoves(Cursor(b2, Reg(b1.next), Reg(b1.next + 1)), SIMD_BYTES, COPY_LOOP_UNROLL);
    CopyLoopParts(b1, b2, c, Bind(c.b, Equal(c.inbuf, Reg(b.next))))
  }

  lemma CopyLoopIsBuilt(p: seq<Block>, b: Builder, inbuf: Operand, outbuf: Operand, vectors: nat)
    requires Ok(b) && Le(CopyLoop(b, inbuf, outbuf, vectors).b.blocks, p)
    ensures var l := LoopParts(b, inbuf, outbuf, vectors);
      var nexts := [l.moved.inbuf, l.moved.outbuf];
      && Le(l.start.blocks, p) && Le(l.head.blocks, p) && Le(l.moved.b.blocks, p) && Le(l.test.blocks, p)
      && CanEndLoop(l.test, l.head.cur, nexts)
      && Heads(l.test, l.head.cur, b.cur, b.next + 1, 2)
      && CopyLoop(b, inbuf, outbuf, vectors)
         == Cursor(EndLoop(l.test, l.head.cur, l.test.cur, Reg(l.moved.b.next), nexts),
                   l.moved.inbuf, l.moved.outbuf)
  {
    var l := LoopParts(b, inbuf, outbuf, vectors);
    var nexts := [l.moved.inbuf, l.moved.outbuf];
    LoopExtends(l.start, [inbuf, outbuf], l.test, l.test.cur, Reg(l.moved.b.next), nexts);
    BeforeEndLoop(p, l.test, l.head.cur, l.test.cur, Reg(l.moved.b.next), nexts);
    Earlier(p, l.moved.b, l.test);
    Earlier(p, l.head, l.moved.b);
    Earlier(p, l.start, l.head);
  }

  lemma SetTwo(regs: Registers, first: nat, x: Operand, y: Operand)
    requires Def(regs, x) && Def(regs, y)
    ensures AllDef(regs, [x, y])
    ensures SetAll(regs, first, [x, y]) == regs[first := Ev(regs, x)][first + 1 := Ev(regs, y)]
  {
    assert [x, y][..1] == [x] && [x][..0] == [];
    assert SetAll(regs, first, []) == regs;
    assert SetAll(regs, first, [x]) == regs[first := Ev(regs, x)];
  }

  lemma SetThree(regs: Registers, first: nat, x: Operand, y: Operand, z: Operand)
    requires Def(regs, x) && Def(regs, y) && Def(regs, z)
    ensures AllDef(regs, [x, y, z])
    ensures SetAll(regs, first, [x, y, z])
         == regs[first := Ev(regs, x)][first + 1 := Ev(regs, y)][first + 2 := Ev(regs, z)]
  {
    SetTwo(regs, first, x, y);
    assert [x, y, z][..2] == [x, y];
  }

  /** At the head of the copy loop with m passes to go. */
  ghost predicate AtCopyLoop(l: CopyLoopParts, exit: nat, m: nat, conf: Conf) {
    && Ok(l.start) && Ok(l.head) && l.head.next == l.start.next + 2 && exit < l.start.next
    && m >= 1 && PASS * m < W
    && CanCopy(Cursor(l.head, Reg(l.start.next), Reg(l.start.next + 1)), PASS * m, conf)
    && exit in conf.regs && conf.regs[exit] == Wrap(conf.regs[l.start.next] + PASS * m)
  }

  lemma TimesPass()
    ensures Times(SIMD_BYTES, COPY_LOOP_UNROLL) == PASS
  {
    TimesIsProduct(SIMD_BYTES, COPY_LOOP_UNROLL);
  }

  /** The sixteen moves and the exit test. */
  lemma CopyPass(p: seq<Block>, b: Builder, inbuf: Operand, outbuf: Operand, vectors: nat, m: nat, conf: Conf)
    returns (conf': Conf)
    requires Ok(b) && Le(CopyLoop(b, inbuf, outbuf, vectors).b.blocks, p)
    requires AtCopyLoop(LoopParts(b, inbuf, outbuf, vectors), b.next, m, conf)
    ensures var l := LoopParts(b, inbuf, outbuf, vectors);
      var c := Cursor(l.head, Reg(l.start.next), Reg(l.start.next + 1));
      && Copied(p, c, l.moved.(b := l.test), PASS, conf, conf')
      && l.moved.b.next in conf'.regs && conf'.regs[l.moved.b.next] == (if m == 1 then 1 else 0)
  {
    hide UnrollMoves, CopyLoop, Ready, Bytes, Le, Extends, Append, Bind, StartLoop, Heads, CanEndLoop, Reaches, Copy,
         Times;
    var l := LoopParts(b, inbuf, outbuf, vectors);
    var c := Cursor(l.head, Reg(l.start.next), Reg(l.start.next + 1));
    CopyLoopIsBuilt(p, b, inbuf, outbuf, vectors);
    TimesPass();
    CanCopyFirst(c, PASS, PASS * (m - 1), conf);
    var conf1 := UnrollRuns(p, c, SIMD_BYTES, COPY_LOOP_UNROLL, conf);
    var test := Equal(l.moved.inbuf, Reg(b.next));
    BindRuns(p, l.moved.b, test, conf1);
    conf' := conf1.(regs := conf1.regs[l.moved.b.next := Value(conf1.regs, test)]);
    Chain(p, At(l.head, conf), At(l.moved.b, conf1), At(l.test, conf'));
    if m > 1 && Wrap(conf.regs[l.start.next] + PASS) == Wrap(conf.regs[l.start.next] + PASS * m) {
      WrapInjective(conf.regs[l.start.next], PASS, PASS * m);
    }
  }

  /** The copy loop leaves after exactly m passes, although it has no counter. */
  lemma {:induction false} CopyLoopPasses(p: seq<Block>, b: Builder, inbuf: Operand, outbuf: Operand, vectors: nat,
                                          m: nat, conf: Conf)
    returns (conf': Conf)
    requires Ok(b) && Le(CopyLoop(b, inbuf, outbuf, vectors).b.blocks, p)
    requires AtCopyLoop(LoopParts(b, inbuf, outbuf, vectors), b.next, m, conf)
    ensures var l := LoopParts(b, inbuf, outbuf, vectors);
      var c := Cursor(l.head, Reg(l.start.next), Reg(l.start.next + 1));
      CopiedByLoop(p, l.start.next, c, CopyLoop(b, inbuf, outbuf, vectors), PASS * m, conf, conf')
    decreases m
  {
    hide UnrollMoves, Ready, Bytes, Le, Extends, StartLoop, EndLoop, Heads, Reaches, Copy;
    var l := LoopParts(b, inbuf, outbuf, vectors);
    var c := Cursor(l.head, Reg(l.start.next), Reg(l.start.next + 1));
    var r := CopyLoop(b, inbuf, outbuf, vectors);
    var nexts := [l.moved.inbuf, l.moved.outbuf];
    CopyLoopIsBuilt(p, b, inbuf, outbuf, vectors);
    var conf1 := CopyPass(p, b, inbuf, outbuf, vectors, m, conf);
    var cond := Reg(l.moved.b.next);
    if m == 1 {
      conf' := conf1;
      EndLoopExits(p, l.test, l.head.cur, l.test.cur, cond, nexts, conf1);
      Chain(p, At(l.head, conf), At(l.test, conf1), At(r.b, conf'));
    } else {
      EndLoopRepeats(p, l.test, l.head.cur, b.cur, b.next + 1, cond, nexts, conf1);
      SetTwo(conf1.regs, b.next + 1, l.moved.inbuf, l.moved.outbuf);
      var conf2 := conf1.(regs := SetAll(conf1.regs, b.next + 1, nexts));
      NextPass(p, l, b.next, m, conf, conf1, conf2);
      Chain(p, At(l.head, conf), At(l.test, conf1), At(l.head, conf2));
      conf' := CopyLoopPasses(p, b, inbuf, outbuf, vectors, m - 1, conf2);
      PassesCompose(p, l, r, m, conf, conf1, conf2, conf');
    }
  }

  /** Copied, except that the loop rewrites its own phis, from register k on. */
  ghost predicate CopiedByLoop(p: seq<Block>, k: nat, c: Cursor, r: Cursor, n: nat, conf: Conf, conf': Conf) {
    && Ok(c.b) && Ok(r.b) && k <= c.b.next <= r.b.next
    && Usable(conf.regs, c.inbuf, c.b.next) && Usable(conf.regs, c.outbuf, c.b.next)
    && Reaches(p, At(c.b, conf), At(r.b, conf'))
    && Keeps(conf.regs, conf'.regs, k)
    && Usable(conf'.regs, r.inbuf, r.b.next) && Usable(conf'.regs, r.outbuf, r.b.next)
    && Ev(conf'.regs, r.inbuf) == Wrap(Ev(conf.regs, c.inbuf) + n)
    && Ev(conf'.regs, r.outbuf) == Wrap(Ev(conf.regs, c.outbuf) + n)
    && conf'.mem == Copy(conf.mem, Bytes(n, Ev(conf.regs, c.inbuf), Ev(conf.regs, c.outbuf)))
  }

  /** One pass done and the phis reassigned: the head again, with one pass fewer to go. */
  lemma NextPass(p: seq<Block>, l: CopyLoopParts, exit: nat, m: nat, conf: Conf, conf1: Conf, conf2: Conf)
    requires m >= 2 && AtCopyLoop(l, exit, m, conf) && Ok(l.test)
    requires Copied(p, Cursor(l.head, Reg(l.start.next), Reg(l.start.next + 1)), l.moved.(b := l.test), PASS, conf,
                    conf1)
    requires conf2.mem == conf1.mem
    requires conf2.regs == conf1.regs[l.start.next := Ev(conf1.regs, l.moved.inbuf)]
                                     [l.start.next + 1 := Ev(conf1.regs, l.moved.outbuf)]
    ensures AtCopyLoop(l, exit, m - 1, conf2)
  {
    var c := Cursor(l.head, Reg(l.start.next), Reg(l.start.next + 1));
    CanCopyRest(p, c, l.moved.(b := l.test), PASS, PASS * (m - 1), conf, conf1);
    WrapWrap(conf.regs[l.start.next] + PASS, PASS * (m - 1));
  }

  lemma PassesCompose(p: seq<Block>, l: CopyLoopParts, r: Cursor, m: nat, conf: Conf, conf1: Conf, conf2: Conf,
                      conf': Conf)
    requires m >= 2 && Ok(l.head) && Ok(l.test) && l.head.next == l.start.next + 2
    requires var c := Cursor(l.head, Reg(l.start.next), Reg(l.start.next + 1));
      && Copied(p, c, l.moved.(b := l.test), PASS, conf, conf1)
      && CopiedByLoop(p, l.start.next, c, r, PASS * (m - 1), conf2, conf')
    requires conf2.mem == conf1.mem && Reaches(p, At(l.head, conf), At(l.head, conf2))
    requires conf2.regs == conf1.regs[l.start.next := Ev(conf1.regs, l.moved.inbuf)]
                                     [l.start.next + 1 := Ev(conf1.regs, l.moved.outbuf)]
    ensures var c := Cursor(l.head, Reg(l.start.next), Reg(l.start.next + 1));
      CopiedByLoop(p, l.start.next, c, r, PASS * m, conf, conf')
  {
    hide Bytes, Copy, Reaches, At;
    var i, o, n := conf.regs[l.start.next], conf.regs[l.start.next + 1], PASS * (m - 1);
    BytesSplit(PASS, n, i, o);
    CopyConcat(conf.mem, Bytes(PASS, i, o), Bytes(n, Wrap(i + PASS), Wrap(o + PASS)));
    Chain(p, At(l.head, conf), At(l.head, conf2), At(r.b, conf'));
    WrapWrap(i + PASS, n);
    WrapWrap(o + PASS, n);
  }

  // ----- codegenPrimitive as a whole -----

  lemma EnterCopyLoop(p: seq<Block>, b: Builder, inbuf: Operand, outbuf: Operand, m: nat, conf: Conf)
    returns (conf': Conf)
    requires CanCopy(Cursor(b, inbuf, outbuf), PASS * m, conf) && m >= 1 && PASS * m < W
    requires Le(CopyLoop(b, inbuf, outbuf, COPY_LOOP_UNROLL * m).b.blocks, p)
    ensures var l := LoopParts(b, inbuf, outbuf, COPY_LOOP_UNROLL * m);
      && Reaches(p, At(b, conf), At(l.head, conf')) && AtCopyLoop(l, b.next, m, conf')
      && conf'.mem == conf.mem && Keeps(conf.regs, conf'.regs, b.next)
      && conf'.regs[b.next + 1] == Ev(conf.regs, inbuf) && conf'.regs[b.next + 2] == Ev(conf.regs, outbuf)
  {
    hide UnrollMoves, CopyLoop, Ready, Bytes, Le, Extends, Append, StartLoop, SetAll, Heads, CanEndLoop, Reaches;
    var vectors := COPY_LOOP_UNROLL * m;
    var l := LoopParts(b, inbuf, outbuf, vectors);
    CopyLoopIsBuilt(p, b, inbuf, outbuf, vectors);
    var exit := Add64(inbuf, Imm(vectors * SIMD_BYTES));
    BindRuns(p, b, exit, conf);
    var conf1 := conf.(regs := conf.regs[b.next := Value(conf.regs, exit)]);
    StartLoopRuns(p, l.start, [inbuf, outbuf], conf1);
    SetTwo(conf1.regs, l.start.next, inbuf, outbuf);
    conf' := conf1.(regs := SetAll(conf1.regs, l.start.next, [inbuf, outbuf]));
    Chain(p, At(b, conf), At(l.start, conf1), At(l.head, conf'));
    WrapWrap(PASS * m, Ev(conf.regs, inbuf));
  }

  /** From the code before the copy loop to the code after it. */
  lemma CopyLoopRuns(p: seq<Block>, b: Builder, inbuf: Operand, outbuf: Operand, m: nat, conf: Conf)
    returns (conf': Conf)
    requires CanCopy(Cursor(b, inbuf, outbuf), PASS * m, conf) && m >= 1 && PASS * m < W
    requires Le(CopyLoop(b, inbuf, outbuf, COPY_LOOP_UNROLL * m).b.blocks, p)
    ensures Copied(p, Cursor(b, inbuf, outbuf), CopyLoop(b, inbuf, outbuf, COPY_LOOP_UNROLL * m), PASS * m, conf, conf')
  {
    var vectors := COPY_LOOP_UNROLL * m;
    var conf1 := EnterCopyLoop(p, b, inbuf, outbuf, m, conf);
    conf' := CopyLoopPasses(p, b, inbuf, outbuf, vectors, m, conf1);
    Chain(p, At(b, conf), At(LoopParts(b, inbuf, outbuf, vectors).head, conf1),
          At(CopyLoop(b, inbuf, outbuf, vectors).b, conf'));
  }

  /** The copy loop for m passes, then the postamble for the `left` elements that remain. */
  lemma LoopThenPostamble(p: seq<Block>, b: Builder, inbuf: Operand, outbuf: Operand, size: nat, m: nat, left: nat,
                          v: nat, conf: Conf)
    returns (conf': Conf)
    requires m >= 1 && PASS * m < W && v >= 1 && left * size >= 0
    requires CanCopy(Cursor(b, inbuf, outbuf), PASS * m + left * size, conf)
    requires Le(Postamble(CopyLoop(b, inbuf, outbuf, COPY_LOOP_UNROLL * m), size, left, v).b.blocks, p)
    ensures Copied(p, Cursor(b, inbuf, outbuf), Postamble(CopyLoop(b, inbuf, outbuf, COPY_LOOP_UNROLL * m), size,
                                                          left, v),
                   PASS * m + left * size, conf, conf')
  {
    hide Copied, CopyLoop, Postamble, PostambleBytes, Ready, Bytes, Le, Extends, Copy;
    var c, d := Cursor(b, inbuf, outbuf), CopyLoop(b, inbuf, outbuf, COPY_LOOP_UNROLL * m);
    PostambleMovesAll(size, left, v);
    Earlier(p, d.b, Postamble(d, size, left, v).b);
    CanCopyFirst(c, PASS * m, left * size, conf);
    var conf1 := CopyLoopRuns(p, b, inbuf, outbuf, m, conf);
    CanCopyRest(p, c, d, PASS * m, left * size, conf, conf1);
    conf' := PostambleRuns(p, d, size, left, v, conf1);
    CopiedTwice(p, c, d, Postamble(d, size, left, v), PASS * m, left * size, conf, conf1, conf');
  }

  /** codegenPrimitive for a constant count: exactly n * size bytes, whichever path it takes. */
  lemma CopyConstantRuns(p: seq<Block>, b: Builder, inbuf: Operand, outbuf: Operand, size: nat, n: nat, conf: Conf)
    returns (conf': Conf)
    requires ElementSize(size) && n <= 0x7fff_ffff
    requires CanCopy(Cursor(b, inbuf, outbuf), n * size, conf)
    requires Le(CopyConstant(b, inbuf, outbuf, size, n).blocks, p)
    ensures var r := CopyConstant(b, inbuf, outbuf, size, n);
      && Ok(r) && Reaches(p, At(b, conf), At(r, conf')) && Keeps(conf.regs, conf'.regs, b.next)
      && conf'.mem == Copy(conf.mem, Bytes(n * size, Ev(conf.regs, inbuf), Ev(conf.regs, outbuf)))
  {
    hide CopyLoop, Postamble, VectorsToCopy, VectorSize, Ready, Bytes, Le, Extends, Reaches, Keeps, Copy,
         PostambleBytes, At;
    var v := VectorSize(size);
    if UsesCopyLoop(n, size) {
      var m := VectorsToCopy(n, size) / COPY_LOOP_UNROLL;
      LoopBytes(n, size, m);
      conf' := LoopThenPostamble(p, b, inbuf, outbuf, size, m, n - VectorsToCopy(n, size) * v, v, conf);
    } else {
      PostambleMovesAll(size, n, v);
      conf' := PostambleRuns(p, Cursor(b, inbuf, outbuf), size, n, v, conf);
    }
  }

  lemma LoopBytes(n: nat, size: nat, m: nat)
    requires ElementSize(size) && n <= 0x7fff_ffff && m == VectorsToCopy(n, size) / COPY_LOOP_UNROLL
    ensures VectorsToCopy(n, size) == COPY_LOOP_UNROLL * m && PASS * m < W
    ensures n * size == PASS * m + (n - VectorsToCopy(n, size) * VectorSize(size)) * size
  {
    var v := VectorsToCopy(n, size);
    assert v == COPY_LOOP_UNROLL * m;
    MulDistributes(n, v * VectorSize(size), size);
    MulAssoc(v, VectorSize(size), size);
  }

  /** codegenPrimitive for a count known at run time is one memcpy, with the same effect. */
  lemma CopyRuntimeRuns(p: seq<Block>, b: Builder, inbuf: Operand, n: Operand, outbuf: Operand, size: nat, conf: Conf)
    returns (conf': Conf)
    requires ElementSize(size) && n.Reg? && Usable(conf.regs, n, b.next) && 0 <= Ev(conf.regs, n) < W32
    requires CanCopy(Cursor(b, inbuf, outbuf), Ev(conf.regs, n) * size, conf)
    requires Le(EmitPrimitive(b, inbuf, n, outbuf, size).blocks, p)
    ensures var r := EmitPrimitive(b, inbuf, n, outbuf, size);
      && Ok(r) && Reaches(p, At(b, conf), At(r, conf')) && Keeps(conf.regs, conf'.regs, b.next)
      && conf'.mem == Copy(conf.mem, Bytes(Ev(conf.regs, n) * size, Ev(conf.regs, inbuf), Ev(conf.regs, outbuf)))
  {
    hide Ready, Bytes, Le, Extends, Reaches;
    var b1 := Bind(b, ZExt(n));
    var product := Mul64(Imm(size), Reg(b.next));
    var b2 := Bind(b1, product);
    var copy := MemCpy(outbuf, inbuf, Reg(b1.next));
    var r := Append(b2, copy);
    Earlier(p, b2, r);
    Earlier(p, b1, b2);
    BindRuns(p, b, ZExt(n), conf);
    var conf1 := conf.(regs := conf.regs[b.next := Value(conf.regs, ZExt(n))]);
    BindRuns(p, b1, product, conf1);
    var conf2 := conf1.(regs := conf1.regs[b1.next := Value(conf1.regs, product)]);
    assert conf2.regs[b1.next] == Ev(conf.regs, n) * size;
    TransferRuns(conf2, outbuf, inbuf, Ev(conf.regs, n) * size, false);
    AppendRuns(p, b2, copy, conf2);
    conf' := Exec(copy, conf2).1;
    Chain(p, At(b, conf), At(b1, conf1), At(b2, conf2));
    Chain(p, At(b, conf), At(b2, conf2), At(r, conf'));
  }

  // ----- code size -----

  /** Moves the postamble emits for n elements. */
  function PostambleMoves(n: nat, vecsize: nat): nat
    decreases vecsize, n
  {
    if vecsize == 0 then 0 else Quotient(n, vecsize) + PostambleMoves(Remainder(n, vecsize), vecsize / 2)
  }

  function Log2(v: nat): nat { if v <= 1 then 0 else 1 + Log2(v / 2) }

  /** Three instructions for each move. */
  lemma {:induction false} UnrollLength(c: Cursor, bytes: nat, n: nat)
    requires Ok(c.b)
    ensures |UnrollMoves(c, bytes, n).b.blocks[c.b.cur].instrs| == |c.b.blocks[c.b.cur].instrs| + 3 * n
    decreases n
  {
    if n > 0 {
      UnrollFirst(c, bytes, n);
      var d := UnrollMoves(c, bytes, 1);
      UnrollLength(d, bytes, n - 1);
    }
  }

  lemma {:induction false} PostambleLength(c: Cursor, size: nat, n: nat, vecsize: nat)
    requires Ok(c.b)
    ensures |Postamble(c, size, n, vecsize).b.blocks[c.b.cur].instrs|
         == |c.b.blocks[c.b.cur].instrs| + 3 * PostambleMoves(n, vecsize)
    decreases vecsize
  {
    if vecsize > 0 {
      hide UnrollMoves, Product, Quotient, Remainder;
      var d := UnrollMoves(c, Product(size, vecsize), Quotient(n, vecsize));
      UnrollLength(c, Product(size, vecsize), Quotient(n, vecsize));
      PostambleLength(d, size, Remainder(n, vecsize), vecsize / 2);
    }
  }

  /** Fewer than 2 * vecsize elements need at most one move of each size. */
  lemma {:induction false} HalvingMoves(n: nat, vecsize: nat)
    requires vecsize >= 1 && n < 2 * vecsize
    requires vecsize == 1 || vecsize == 2 || vecsize == 4 || vecsize == 8 || vecsize == 16
    ensures PostambleMoves(n, vecsize) <= 1 + Log2(vecsize)
    ensures n == 2 * vecsize - 1 ==> PostambleMoves(n, vecsize) == 1 + Log2(vecsize)
    decreases vecsize
  {
    hide Log2;
    Log2Step(vecsize);
    if vecsize > 1 {
      HalvingMoves(Remainder(n, vecsize), vecsize / 2);
    } else {
      assert PostambleMoves(Remainder(n, 1), 0) == 0;
    }
  }

  lemma Log2Step(v: nat)
    ensures Log2(1) == 0 && (v >= 2 ==> Log2(v) == 1 + Log2(v / 2))
  {
  }

  /** The elements the postamble of codegenPrimitive has to copy. */
  function Leftover(n: nat, size: int): nat
    requires ElementSize(size)
  {
    if UsesCopyLoop(n, size) then n - VectorsToCopy(n, size) * VectorSize(size) else n
  }

  /** However large the count, the postamble never emits more than 31 + log2(16 / size) moves; a
      count of 32 vectors less one element needs all of them. */
  lemma PostambleIsShort(n: nat, size: int)
    requires ElementSize(size)
    ensures PostambleMoves(Leftover(n, size), VectorSize(size)) <= 31 + Log2(VectorSize(size))
    ensures n == 32 * VectorSize(size) - 1 ==>
      PostambleMoves(Leftover(n, size), VectorSize(size)) == 31 + Log2(VectorSize(size))
  {
    var v, left := VectorSize(size), Leftover(n, size);
    LeftoverIsSmall(n, size);
    QuotientBelow(left, v, 32);
    HalvingMoves(left % v, v / 2);
    if n == 32 * v - 1 { assert left == n && left / v == 31 && left % v == v - 1; }
  }

  lemma QuotientBelow(n: nat, v: nat, k: nat)
    requires v >= 1 && n < k * v
    ensures n / v < k
  {
    var q := n / v;
    assert n == q * v + n % v;
    MulNonNegative(if q >= k then q - k else 0, v);
    MulDistributes(q, k, v);
  }

  lemma LeftoverIsSmall(n: nat, size: int)
    requires ElementSize(size)
    ensures Leftover(n, size) < 32 * VectorSize(size)
    ensures n == 32 * VectorSize(size) - 1 ==> Leftover(n, size) == n
  {
    var v := VectorSize(size);
    if !UsesCopyLoop(n, size) && n >= 32 * v {
      assert n / v >= 32;
      assert (n / v) / COPY_LOOP_UNROLL >= 2;
    }
  }

  /** The copy loop is used from 512 bytes on, and takes the largest multiple of 256 bytes. */
  lemma CopyLoopExact(n: nat, size: int)
    requires ElementSize(size)
    ensures UsesCopyLoop(n, size) <==> n * size >= 512
    ensures VectorsToCopy(n, size) * 16 == n * size / 256 * 256
  {
    if size == 1 { BySixteen(n, 16); } else if size == 4 { BySixteen(n, 4); } else { BySixteen(n, 2); }
  }

  /** Dividing by a vector and by sixteen is dividing by both. */
  lemma BySixteen(n: nat, v: nat)
    requires v == 2 || v == 4 || v == 16
    ensures n / v / 16 == n / (v * 16) && n / (v * 16) == n * (16 / v) / 256
  {}
}
