/** Calls with a count of zero, which MPI allows.  The loops of the generators test at the bottom, so the code of
    every type but a primitive moves a first item before it looks at the count. */
module ZeroCount {
  import opened Datatypes
  import opened Wellformed
  import opened Machine
  import opened Builders
  import opened Transfers
  import opened Emission
  import opened Routes
  import opened ExecPrimitive
  import opened Execution
  import opened Calls
  import opened ExecContiguous
  import opened ExecVector
  import opened ExecIndexed
  import opened ExecTable
  import opened ExecResized
  import opened ExecTypes
  import opened Compilation
  import opened Defects
  import opened Visibility
  import opened Silence

  /** The run comes to a state, still running, in which exactly ts has been done. */
  ghost predicate ComesTo(p: seq<Block>, from: State, mem: Memory, ts: seq<Transfer>) {
    exists s: State :: s.Running? && Reaches(p, from, s) && s.conf.mem == Copy(mem, ts)
  }

  lemma DoneComes(p: seq<Block>, k: nat, a: Builder, b: Builder, conf: Conf, conf': Conf, ts: seq<Transfer>)
    requires Done(p, k, a, b, conf, conf', ts)
    ensures ComesTo(p, At(a, conf), conf.mem, ts)
  {
    assert At(b, conf').Running?;
  }

  /** From the code before a loop, through the head, to its test. */
  lemma FirstRound(p: seq<Block>, b: Builder, head: Builder, test: Builder, conf: Conf, conf1: Conf, conf2: Conf,
                   ts: seq<Transfer>)
    requires Done(p, b.next, b, head, conf, conf1, []) && Done(p, b.next, head, test, conf1, conf2, ts)
    ensures ComesTo(p, At(b, conf), conf.mem, ts)
  {
    hide Done;
    ThenLoop(p, b.next, b, head, test, conf, conf1, conf2, ts);
    DoneComes(p, b.next, b, test, conf, conf2, ts);
  }

  // ----- the first round of each generator, whatever the count -----

  lemma ContiguousFirst(p: seq<Block>, b: Builder, pack: bool, inbuf: Operand, n: Operand, outbuf: Operand,
                        base: Datatype, inInc: int, outInc: int, count: int, conf: Conf)
    requires Ok(b) && Le(EmitContiguous(b, pack, inbuf, n, outbuf, base, inInc, outInc, count).blocks, p)
    requires Args(conf.regs, b.next, inbuf, n, outbuf)
    requires Runs(p, base, pack) && CountOk(base, count) && count <= INT32_MAX
    requires Ready(conf.mem, Along(RouteCopies(base, pack, count), Ev(conf.regs, inbuf), Ev(conf.regs, outbuf)))
    ensures ComesTo(p, At(b, conf), conf.mem,
                    Along(RouteCopies(base, pack, count), Ev(conf.regs, inbuf), Ev(conf.regs, outbuf)))
  {
    hide Runs, Ready, Along, Copy, Reaches, Le, EmitContiguous, At, ContiguousLoop, RouteCopies, StartLoop, ComesTo;
    var l := ContiguousLoop(b, pack, inbuf, n, outbuf, base, inInc, outInc, count);
    var x, y := Ev(conf.regs, inbuf), Ev(conf.regs, outbuf);
    ContiguousHeadIsBuilt(p, b, pack, inbuf, n, outbuf, base, inInc, outInc, count);
    DoneNothing(p, b, conf);
    SetThree(conf.regs, b.next, outbuf, inbuf, Imm(0));
    var c1 := ThenStartLoop(p, b.next, b, b, [outbuf, inbuf, Imm(0)], conf, conf, []);
    var c2 := ContiguousPass(p, b, pack, inbuf, n, outbuf, base, inInc, outInc, count, x, y, 0, c1);
    FirstRound(p, b, l.head, l.test, conf, c1, c2, Along(RouteCopies(base, pack, count), x, y));
  }

  lemma VectorFirst(p: seq<Block>, b: Builder, pack: bool, inbuf: Operand, n: Operand, outbuf: Operand, base: Datatype,
                    blocklen: int, inStride: int, outStride: int, inInc: int, outInc: int, count: nat, conf: Conf)
    requires Ok(b)
    requires Le(EmitVector(b, pack, inbuf, n, outbuf, base, blocklen, inStride, outStride, inInc, outInc).blocks, p)
    requires Args(conf.regs, b.next, inbuf, n, outbuf)
    requires Runs(p, base, pack) && CountOk(base, blocklen) && blocklen <= INT32_MAX
    requires Pitched(pack, count, inStride, outStride, inInc, outInc)
    requires Ready(conf.mem, Along(Blocks(base, pack, blocklen, inStride, outStride, count),
                                   Ev(conf.regs, inbuf), Ev(conf.regs, outbuf)))
    ensures ComesTo(p, At(b, conf), conf.mem, Along(Blocks(base, pack, blocklen, inStride, outStride, count),
                                                    Ev(conf.regs, inbuf), Ev(conf.regs, outbuf)))
  {
    hide Runs, Ready, Along, Blocks, Copy, Reaches, Le, EmitVector, OuterLoop, At, StartLoop, Pitched, ComesTo,
         CanEndLoop, Heads;
    var l := OuterLoop(b, pack, inbuf, n, outbuf, base, blocklen, inStride, outStride, inInc, outInc);
    var x, y := Ev(conf.regs, inbuf), Ev(conf.regs, outbuf);
    OuterIsBuilt(p, b, pack, inbuf, n, outbuf, base, blocklen, inStride, outStride, inInc, outInc);
    DoneNothing(p, b, conf);
    SetThree(conf.regs, b.next, outbuf, inbuf, Imm(0));
    var c1 := ThenStartLoop(p, b.next, b, b, [outbuf, inbuf, Imm(0)], conf, conf, []);
    var c2 := OuterPass(p, b, pack, inbuf, n, outbuf, base, blocklen, inStride, outStride, inInc, outInc, count, x, y,
                        0, c1);
    FirstRound(p, b, l.head, l.test, conf, c1, c2,
               Along(Blocks(base, pack, blocklen, inStride, outStride, count), x, y));
  }

  lemma StridedFirst(p: seq<Block>, v: Datatype, pack: bool, b: Builder, inbuf: Operand, n: Operand, outbuf: Operand,
                     extent: int, conf: Conf)
    requires (v.Vector? || v.HVector?) && Positive(v) && Fits(v) && Ok(b) && Runs(p, v.base, pack)
    requires Args(conf.regs, b.next, inbuf, n, outbuf)
    requires Le(EmitStrided(b, pack, inbuf, n, outbuf, v.base, v.blocklen, DataStride(v),
                            InStep(pack, extent, Size(v)), OutStep(pack, extent, Size(v))).blocks, p)
    requires Ready(conf.mem, Along(Strides(v.base, pack, v.blocklen, DataStride(v), v.count),
                                   Ev(conf.regs, inbuf), Ev(conf.regs, outbuf)))
    ensures ComesTo(p, At(b, conf), conf.mem, Along(Strides(v.base, pack, v.blocklen, DataStride(v), v.count),
                                                    Ev(conf.regs, inbuf), Ev(conf.regs, outbuf)))
  {
    hide Ready, Along, Le, EmitVector, Laps, RouteCopies, Size, DataStride, Pitched, Runs, Positive, Fits, ComesTo, At;
    StridesPitched(v, pack, extent);
    var packed, data := Size(v.base) * v.blocklen, DataStride(v);
    VectorFirst(p, b, pack, inbuf, n, outbuf, v.base, v.blocklen, InStep(pack, data, packed),
                OutStep(pack, data, packed), InStep(pack, extent, Size(v)), OutStep(pack, extent, Size(v)), v.count,
                conf);
  }

  lemma IndexedFirst(p: seq<Block>, b: Builder, pack: bool, inbuf: Operand, n: Operand, outbuf: Operand,
                     extent: int, fields: seq<Field>, conf: Conf)
    requires Ok(b) && Le(EmitIndexed(b, pack, inbuf, n, outbuf, extent, fields).blocks, p)
    requires Args(conf.regs, b.next, inbuf, n, outbuf) && FieldsRun(p, fields, pack)
    requires Ready(conf.mem, Along(FieldsRoute(fields, pack), Ev(conf.regs, inbuf), Ev(conf.regs, outbuf)))
    ensures ComesTo(p, At(b, conf), conf.mem,
                    Along(FieldsRoute(fields, pack), Ev(conf.regs, inbuf), Ev(conf.regs, outbuf)))
  {
    hide FieldsRun, Ready, Along, FieldsRoute, FieldsSize, Le, EmitIndexed, IndexedLoop, At, Done, ComesTo;
    var l := IndexedLoop(b, pack, inbuf, n, outbuf, extent, fields);
    var ts := Along(FieldsRoute(fields, pack), Ev(conf.regs, inbuf), Ev(conf.regs, outbuf));
    var c1 := EnterItems(p, b, pack, inbuf, n, outbuf, extent, fields, conf);
    var c, total := Ev(conf.regs, CompactOf(pack, inbuf, outbuf)), Wrap(Ev(conf.regs, n) * Wrap(extent));
    var c2 := IndexedItem(p, b, pack, inbuf, n, outbuf, extent, fields, c, 0, total, c1);
    Weaken(p, l.total.next, b.next, l.head, l.test, c1, c2, ts);
    FirstRound(p, b, l.head, l.test, conf, c1, c2, ts);
  }

  lemma TableFirst(p: seq<Block>, b: Builder, pack: bool, inbuf: Operand, n: Operand, outbuf: Operand,
                   extent: nat, size: nat, blocklen: int, base: Datatype, table: seq<int>, conf: Conf)
    requires Ok(b) && TableOk(base, blocklen, table) && Runs(p, base, pack) && RowSize(table, blocklen, base) >= 0
    requires Le(EmitTable(b, pack, inbuf, n, outbuf, extent, size, blocklen, base, table).blocks, p)
    requires Args(conf.regs, b.next, inbuf, n, outbuf) && size <= INT32_MAX
    requires Ready(conf.mem, Along(Row(table, blocklen, base, pack), Ev(conf.regs, inbuf), Ev(conf.regs, outbuf)))
    ensures ComesTo(p, At(b, conf), conf.mem,
                    Along(Row(table, blocklen, base, pack), Ev(conf.regs, inbuf), Ev(conf.regs, outbuf)))
  {
    hide Ready, Along, Reaches, Le, At, Times, TableOuter, EmitTable, TableOk, Prelude, Runs, TableInner, RowSize, Row,
         StartLoop, Done, Keeps, Bind, RowLoop, Usable, ComesTo, TableHead;
    var compact, scattered := CompactOf(pack, inbuf, outbuf), ScatteredOf(pack, inbuf, outbuf);
    var b3 := Prelude(b, pack, inbuf, n, outbuf, size);
    TableParts(p, b, pack, inbuf, n, outbuf, extent, size, blocklen, base, table);
    ArgsOf(conf.regs, b.next, inbuf, n, outbuf);
    NothingReady(conf.mem, table, blocklen, base, pack, extent, Ev(conf.regs, inbuf), Ev(conf.regs, outbuf));
    var c1 := ReachRows(p, b, pack, inbuf, n, outbuf, extent, size, blocklen, base, table, 0, conf);
    var l := RowLoop(b3, pack, compact, scattered, Reg(b.next + 2), extent, blocklen, base, table);
    var d, c := Ev(conf.regs, scattered), Ev(conf.regs, compact);
    var c2 := RowPass(p, b3, pack, compact, scattered, Reg(b.next + 2), extent, blocklen, base, table, c, d, c1);
    var ts := Along(Row(table, blocklen, base, pack), Ev(conf.regs, inbuf), Ev(conf.regs, outbuf));
    Weaken(p, b3.next, b.next, l.head, l.test, c1, c2, ts);
    FirstRound(p, b, l.head, l.test, conf, c1, c2, ts);
  }

  lemma NothingReady(mem: Memory, table: seq<int>, blocklen: int, base: Datatype, pack: bool, extent: nat, x: int,
                     y: int)
    ensures Ready(mem, Along(ExecTable.Items(table, blocklen, base, pack, extent, 0), x, y))
  {}

  lemma ResizedFirst(p: seq<Block>, b: Builder, inbuf: Operand, n: Operand, outbuf: Operand, size: nat, extent: int,
                     conf: Conf)
    requires Ok(b) && Le(EmitPrimitiveResized(b, inbuf, n, outbuf, size, extent).blocks, p) && size < W
    requires Args(conf.regs, b.next, inbuf, n, outbuf)
    requires Ready(conf.mem, Bytes(size, Ev(conf.regs, inbuf), Ev(conf.regs, outbuf)))
    ensures ComesTo(p, At(b, conf), conf.mem, Bytes(size, Ev(conf.regs, inbuf), Ev(conf.regs, outbuf)))
  {
    hide Ready, Bytes, Copy, Reaches, Le, StartLoop, EmitPrimitiveResized, At, Heads, CanEndLoop, ComesTo;
    var l := ResizedLoop(b, inbuf, n, outbuf, size, extent);
    var x, y := Ev(conf.regs, inbuf), Ev(conf.regs, outbuf);
    ResizedIsBuilt(p, b, inbuf, n, outbuf, size, extent);
    DoneNothing(p, b, conf);
    SetThree(conf.regs, b.next, inbuf, outbuf, n);
    var c1 := ThenStartLoop(p, b.next, b, b, [inbuf, outbuf, n], conf, conf, []);
    var c2 := ResizedPass(p, b, inbuf, n, outbuf, size, extent, x, y, Ev(conf.regs, n), c1);
    FirstRound(p, b, l.head, l.test, conf, c1, c2, Bytes(size, x, y));
  }

  // ----- the first item of a tree, whatever the count -----

  /** What the code of t meets at its entry. */
  ghost predicate Entered(p: seq<Block>, t: Datatype, pack: bool, b: Builder, conf: Conf) {
    && Ok(b) && Le(Emit(t, pack, b, Reg(0), Reg(1), Reg(2)).blocks, p)
    && Args(conf.regs, b.next, Reg(0), Reg(1), Reg(2)) && BasesRun(p, t, pack)
    && Ready(conf.mem, Along(Route(t, pack), Ev(conf.regs, Reg(0)), Ev(conf.regs, Reg(2))))
  }

  ghost predicate Moved(p: seq<Block>, t: Datatype, pack: bool, b: Builder, conf: Conf)
    requires Ok(b) && Def(conf.regs, Reg(0)) && Def(conf.regs, Reg(2))
  {
    ComesTo(p, At(b, conf), conf.mem, Along(Route(t, pack), Ev(conf.regs, Reg(0)), Ev(conf.regs, Reg(2))))
  }

  lemma IndexedTypeFirst(p: seq<Block>, t: Datatype, pack: bool, b: Builder, conf: Conf)
    requires Emittable(t) && Indexed(t) && Entered(p, t, pack, b, conf)
    ensures Moved(p, t, pack, b, conf)
  {
    hide Emittable, Ready, Along, Le, EmitIndexed, EmitTable, ComesTo, At, Runs, FieldsRun, FieldsOf, Emit, Extent,
         Size, TableOk, RowSize, DisplacementTable, FieldsRoute;
    RouteOfIndexed(t, pack);
    if Tabled(t) {
      TableIsOk(t);
      EmitTableCase(t, pack, b, Reg(0), Reg(1), Reg(2));
      ExtentInRangeOf(t);
      RowIsBlocks(t);
      TableFirst(p, b, pack, Reg(0), Reg(1), Reg(2), Extent(t), Size(t), t.blocklen, t.base,
                 DisplacementTable(t.displs, t.base), conf);
    } else {
      EmitUnrolledCase(t, pack, b, Reg(0), Reg(1), Reg(2));
      IndexedFirst(p, b, pack, Reg(0), Reg(1), Reg(2), Extent(t), FieldsOf(t), conf);
    }
  }

  lemma RouteOfIndexed(t: Datatype, pack: bool)
    requires Indexed(t)
    ensures Route(t, pack) == FieldsRoute(FieldsOf(t), pack)
  {}

  lemma ResizedTypeFirst(p: seq<Block>, t: Datatype, pack: bool, b: Builder, conf: Conf)
    requires Emittable(t) && t.Resized? && Entered(p, t, pack, b, conf)
    ensures Moved(p, t, pack, b, conf)
  {
    hide Ready, Along, Le, EmitContiguous, EmitStrided, EmitPrimitiveResized, ComesTo, At, Runs, Emit, Extent, Lb, Ub,
         Route, RouteCopies, Strides, DataStride;
    EmitOfResized(t, pack, b, Reg(0), Reg(1), Reg(2));
    RouteOfResized(t, pack);
    var x, y := Ev(conf.regs, Reg(0)), Ev(conf.regs, Reg(2));
    if t.base.Primitive? {
      DenseMoves(PrimitiveSize(t.base.prim), x, y);
      ResizedFirst(p, b, Reg(0), Reg(1), Reg(2), Size(t.base), t.extent, conf);
    } else if t.base.Contiguous? {
      ContiguousCounts(t.base);
      ContiguousFirst(p, b, true, Reg(0), Reg(1), Reg(2), t.base.base, t.extent, Size(t.base), t.base.count, conf);
    } else if t.base.Vector? || t.base.HVector? {
      StridedFirst(p, t.base, pack, b, Reg(0), Reg(1), Reg(2), t.extent, conf);
    } else {
      DoneNothing(p, b, conf);
      DoneComes(p, b.next, b, b, conf, conf, []);
      assert Along([], x, y) == [] by { EmptyAlong(x, y); }
    }
  }

  lemma EmptyAlong(x: int, y: int)
    ensures Along([], x, y) == []
  {}

  lemma TypeFirst(p: seq<Block>, t: Datatype, pack: bool, b: Builder, conf: Conf)
    requires Emittable(t) && !t.Primitive? && Entered(p, t, pack, b, conf)
    ensures Moved(p, t, pack, b, conf)
  {
    hide Ready, Along, Le, EmitContiguous, EmitStrided, ComesTo, At, Runs, Emit, Extent, Lb, Ub, Route, RouteCopies,
         Strides, DataStride, FieldsRun, FieldsOf, Size;
    match t
    case Contiguous(_, _) =>
      EmitContiguousCase(t, pack, b, Reg(0), Reg(1), Reg(2));
      ContiguousFirst(p, b, pack, Reg(0), Reg(1), Reg(2), t.base, InPitch(t, pack), OutPitch(t, pack), t.count, conf);
    case Vector(_, _, _, _) =>
      EmitVectorCase(t, pack, b, Reg(0), Reg(1), Reg(2));
      StridedFirst(p, t, pack, b, Reg(0), Reg(1), Reg(2), Extent(t), conf);
    case HVector(_, _, _, _) =>
      EmitVectorCase(t, pack, b, Reg(0), Reg(1), Reg(2));
      StridedFirst(p, t, pack, b, Reg(0), Reg(1), Reg(2), Extent(t), conf);
    case Resized(_, _, _) => ResizedTypeFirst(p, t, pack, b, conf);
    case _ => IndexedTypeFirst(p, t, pack, b, conf);
  }

  /** THE FIRST ITEM IS MOVED WHATEVER THE COUNT, zero included, by the code of every emittable tree but a
      primitive. */
  lemma FirstItemMoved(t: Datatype, pack: bool, mem: Memory, inbuf: int, n: int, outbuf: int)
    requires Emittable(t) && !t.Primitive? && 0 <= inbuf < W && 0 <= outbuf < W && 0 <= n < W32
    requires Ready(mem, Along(Route(t, pack), inbuf, outbuf))
    ensures ComesTo(Function(t, pack), Call(mem, inbuf, n, outbuf), mem, Along(Route(t, pack), inbuf, outbuf))
  {
    hide Emittable, Ready, Along, Route, Emit, Finish, Le, ComesTo, Start, BasesRun;
    var conf := Start(mem, inbuf, n, outbuf);
    BasesOf(Function(t, pack), t, pack);
    FinishContains(Emit(t, pack, ENTRY, Reg(0), Reg(1), Reg(2)));
    StartArgs(mem, inbuf, n, outbuf);
    StartMemory(mem, inbuf, n, outbuf);
    StartIsCall(mem, inbuf, n, outbuf);
    TypeFirst(Function(t, pack), t, pack, ENTRY, conf);
  }

  // ----- a count of zero -----

  /** A call with count zero comes to a state with other memory. */
  ghost predicate ZeroTouches(t: Datatype, pack: bool, inbuf: int, outbuf: int) {
    exists mem: Memory, s: State ::
      && Ready(mem, Along(Route(t, pack), inbuf, outbuf))
      && Reaches(Function(t, pack), Call(mem, inbuf, 0, outbuf), s) && !Holds(s, mem)
  }

  /** Appending to a single block. */
  lemma AppendToOne(code: seq<Instr>, k: nat, i: Instr)
    ensures var b := Builder([Block([], code, Open)], 0, k);
      Append(b, i) == Builder([Block([], code + [i], Open)], 0, k)
  {
    var b := Builder([Block([], code, Open)], 0, k);
    assert Append(b, i).blocks == [Block([], code + [i], Open)];
  }

  lemma PrimitiveFunction(t: Datatype, pack: bool)
    requires t.Primitive?
    ensures var size := PrimitiveSize(t.prim);
      Function(t, pack) == [Block([], [Let(3, ZExt(Reg(1))), Let(4, Mul64(Imm(size), Reg(3))),
                                       MemCpy(Reg(2), Reg(0), Reg(4))], Ret)]
  {
    hide Append;
    var e1, e2 := ZExt(Reg(1)), Mul64(Imm(PrimitiveSize(t.prim)), Reg(3));
    var copy := MemCpy(Reg(2), Reg(0), Reg(4));
    AppendToOne([], 3, Let(3, e1));
    AppendToOne([Let(3, e1)], 4, Let(4, e2));
    AppendToOne([Let(3, e1), Let(4, e2)], 5, copy);
    assert [] + [Let(3, e1)] == [Let(3, e1)] && [Let(3, e1)] + [Let(4, e2)] == [Let(3, e1), Let(4, e2)];
    assert [Let(3, e1), Let(4, e2)] + [copy] == [Let(3, e1), Let(4, e2), copy];
    var b := Emit(t, pack, ENTRY, Reg(0), Reg(1), Reg(2));
    assert b == Builder([Block([], [Let(3, e1), Let(4, e2), copy], Open)], 0, 5);
    assert Finish(b) == [Block([], [Let(3, e1), Let(4, e2), copy], Ret)];
  }

  /** For a primitive every state of the run has the old memory, and it returns. */
  lemma ZeroPrimitive(t: Datatype, pack: bool, mem: Memory, inbuf: int, outbuf: int, m: nat)
    requires t.Primitive? && 0 <= inbuf < W && 0 <= outbuf < W
    ensures Holds(Run(Function(t, pack), Call(mem, inbuf, 0, outbuf), m), mem)
    ensures Run(Function(t, pack), Call(mem, inbuf, 0, outbuf), 4) == Returned(mem)
  {
    hide Function;
    var p, s0 := Function(t, pack), Call(mem, inbuf, 0, outbuf);
    PrimitiveFunction(t, pack);
    var s1 := Step(p, s0);
    var s2 := Step(p, s1);
    var s3 := Step(p, s2);
    assert s1 == Running(Conf(map[0 := inbuf, 1 := 0, 2 := outbuf, 3 := 0], mem), 0, 1);
    assert s2 == Running(Conf(map[0 := inbuf, 1 := 0, 2 := outbuf, 3 := 0, 4 := 0], mem), 0, 2);
    assert s3 == Running(s2.conf, 0, 3);
    assert Step(p, s3) == Returned(mem);
    assert Run(p, s0, 4) == Run(p, s1, 3) == Run(p, s2, 2) == Run(p, s3, 1) == Run(p, Returned(mem), 0);
    if m >= 4 {
      RunSplit(p, s0, 4, m - 4);
      StaysStopped(p, Returned(mem), m - 4);
    } else {
      assert Run(p, s0, 1) == Run(p, s1, 0) == s1;
      assert Run(p, s0, 2) == Run(p, s1, 1) == Run(p, s2, 0) == s2;
      assert Run(p, s0, 3) == Run(p, s1, 2) == Run(p, s2, 1) == Run(p, s3, 0) == s3;
    }
  }

  /** A nonempty list of transfers between separate buffers changes some memory. */
  lemma SomethingChanges(ts: seq<Transfer>) returns (mem: Memory)
    requires Separate(ts) && ts != []
    ensures Ready(mem, ts) && Copy(mem, ts) != mem
  {
    var a := ts[0].dst;
    assert Writer(ts, a) >= 0;
    assert Separate([]);
    assert Origin(ts, a) != Origin([], a);
    VisibleExact(ts, []);
    mem :| Ready(mem, ts) && Ready(mem, []) && Copy(mem, ts) != Copy(mem, []);
  }

  lemma NothingElse(t: Datatype, pack: bool, mem: Memory, inbuf: int, outbuf: int, s: State)
    requires Emittable(t) && (t.Primitive? || Route(t, pack) == []) && 0 <= inbuf < W && 0 <= outbuf < W
    requires Reaches(Function(t, pack), Call(mem, inbuf, 0, outbuf), s)
    ensures Holds(s, mem)
  {
    hide Emit, Route, Size, Extent, Lb, Ub, Silent, Step;
    var m: nat :| Run(Function(t, pack), Call(mem, inbuf, 0, outbuf), m) == s;
    if t.Primitive? {
      ZeroPrimitive(t, pack, mem, inbuf, outbuf, m);
    } else {
      RouteSilent(t, pack);
      SilentIsQuiet(t, pack);
      FunctionInert(t, pack);
      InertRun(Function(t, pack), Call(mem, inbuf, 0, outbuf), mem, m);
    }
  }

  lemma FunctionInert(t: Datatype, pack: bool)
    requires Quiet(t, pack)
    ensures Inert(Function(t, pack))
  {
    hide Emit;
    var b := Emit(t, pack, ENTRY, Reg(0), Reg(1), Reg(2));
    assert Inert(ENTRY.blocks);
    forall id | 0 <= id < |b.blocks| ensures Harmless(Finish(b)[id].instrs) { assert Harmless(b.blocks[id].instrs); }
  }

  /** A COUNT OF ZERO LEAVES MEMORY ALONE if and only if the type is a primitive or its code moves no byte at all. */
  lemma ZeroExact(t: Datatype, pack: bool, inbuf: int, outbuf: int)
    requires Emittable(t) && 0 <= inbuf < W && 0 <= outbuf < W && Separate(Along(Route(t, pack), inbuf, outbuf))
    ensures ZeroTouches(t, pack, inbuf, outbuf) <==> !t.Primitive? && !Silent(t)
  {
    hide Emittable, Ready, Along, Route, Function, Separate, Silent, Reaches, Copy, Positive, Fits;
    var ts := Along(Route(t, pack), inbuf, outbuf);
    EmittableIsPositive(t);
    RouteSilent(t, pack);
    if !t.Primitive? && !Silent(t) {
      AlongNotEmpty(Route(t, pack), inbuf, outbuf);
      var mem := SomethingChanges(ts);
      FirstItemMoved(t, pack, mem, inbuf, 0, outbuf);
      var s: State :| s.Running? && Reaches(Function(t, pack), Call(mem, inbuf, 0, outbuf), s)
        && s.conf.mem == Copy(mem, ts);
      assert !Holds(s, mem);
    } else {
      forall mem: Memory, s: State | Reaches(Function(t, pack), Call(mem, inbuf, 0, outbuf), s) ensures Holds(s, mem) {
        NothingElse(t, pack, mem, inbuf, outbuf, s);
      }
    }
  }

  lemma EmittableIsPositive(t: Datatype)
    requires Emittable(t)
    ensures Positive(t)
  {}

  lemma AlongNotEmpty(r: seq<Hop>, inbuf: int, outbuf: int)
    requires r != []
    ensures Along(r, inbuf, outbuf) != []
  {
    assert |Along(r, inbuf, outbuf)| == |r|;
  }
}
